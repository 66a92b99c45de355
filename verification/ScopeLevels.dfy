/** Every level the scope walk comes through: what it carries there, and what a declared body is let see. */
module ScopeLevels {
  import opened Wrappers
  import opened Text
  import opened Lexer
  import opened Parens
  import opened Quoting
  import opened Branches
  import opened Ctes
  import opened ScopeWalk

  /** What the walk carries to a level. */
  datatype Stage = Stage(lo: nat, hi: nat, view: View, scopes: map<(nat, nat), map<string, Projection>>, remaining: nat)

  function Top(lang: Language, ts: seq<Token>, lo: nat, hi: nat): Stage
    requires hi <= |ts|
  {
    Stage(lo, hi, View(Declarations(lang, ts, lo, hi, MAX_NESTING), None), BodyScopes(lang, ts, lo, hi, MAX_NESTING),
          MAX_NESTING)
  }

  function ScopeOn(lang: Language, ts: seq<Token>, caret: nat, l: Stage): Scope
    requires l.lo <= l.hi <= |ts|
  {
    ScopeFrom(lang, ts, l.lo, l.hi, caret, l.view, l.scopes, l.remaining)
  }

  /** The body the walk goes on to from a level. */
  function Entered(lang: Language, ts: seq<Token>, caret: nat, l: Stage): Option<ScopeWalk.Body>
    requires l.lo <= l.hi <= |ts|
  {
    if l.remaining == 0 then None else Inner(lang, ts, l.lo, l.hi, caret)
  }

  /** What it carries there. */
  function Below(lang: Language, ts: seq<Token>, caret: nat, l: Stage): (below: Stage)
    requires l.lo <= l.hi <= |ts| && Entered(lang, ts, caret, l).Some?
    ensures below.lo <= below.hi <= |ts| && below.remaining < l.remaining
  {
    var b := Entered(lang, ts, caret, l).value;
    var seen := ViewOf(lang, ts, b, LevelScope(lang, ts, l.lo, l.hi, caret, l.view), l.scopes);
    Stage(b.lo, b.hi, seen.(ctes := seen.ctes + Declarations(lang, ts, b.lo, b.hi, l.remaining - 1)),
          l.scopes + BodyScopes(lang, ts, b.lo, b.hi, l.remaining - 1), l.remaining - 1)
  }

  /** The level `n` steps further down, or the last there is. */
  function Down(lang: Language, ts: seq<Token>, caret: nat, l: Stage, n: nat): (r: Stage)
    requires l.lo <= l.hi <= |ts|
    ensures r.lo <= r.hi <= |ts|
    decreases n
  {
    if n == 0 || Entered(lang, ts, caret, l).None? then l
    else Down(lang, ts, caret, Below(lang, ts, caret, l), n - 1)
  }

  /** The scope of the caret is that of every level the walk comes through. */
  lemma {:induction false} WalkComesThrough(lang: Language, ts: seq<Token>, caret: nat, l: Stage, n: nat)
    requires l.lo <= l.hi <= |ts|
    ensures ScopeOn(lang, ts, caret, Down(lang, ts, caret, l, n)) == ScopeOn(lang, ts, caret, l)
    decreases n
  {
    hide ScopeFrom, LevelScope, Inner, ViewOf, Declarations, BodyScopes;
    if n > 0 && Entered(lang, ts, caret, l).Some? {
      WalkStep(lang, ts, l.lo, l.hi, caret, l.view, l.scopes, l.remaining);
      WalkComesThrough(lang, ts, caret, Below(lang, ts, caret, l), n - 1);
    }
  }

  /** What a level has filed: its own bodies, over what the levels round it filed behind parens. */
  ghost predicate IsFiled(lang: Language, ts: seq<Token>, l: Stage) {
    && l.hi <= |ts|
    && exists outer :: BehindParens(ts, outer) && l.scopes == outer + BodyScopes(lang, ts, l.lo, l.hi, l.remaining)
  }

  lemma BodiesAreBehindParens(lang: Language, ts: seq<Token>, lo: nat, hi: nat, remaining: nat)
    requires hi <= |ts|
    ensures BehindParens(ts, BodyScopes(lang, ts, lo, hi, remaining))
  {
    hide WithList, BodyScopes, Declarations, Sees, Restrict, ClosingAt;
    BodyScopesAre(lang, ts, lo, hi, remaining);
  }

  lemma {:induction false} EveryLevelIsFiled(lang: Language, ts: seq<Token>, caret: nat, l: Stage, n: nat)
    requires l.lo <= l.hi <= |ts| && IsFiled(lang, ts, l)
    ensures IsFiled(lang, ts, Down(lang, ts, caret, l, n))
    decreases n
  {
    hide LevelScope, Inner, ViewOf, Declarations, BodyScopes;
    if n > 0 && Entered(lang, ts, caret, l).Some? {
      BodiesAreBehindParens(lang, ts, l.lo, l.hi, l.remaining);
      assert BehindParens(ts, l.scopes);
      EveryLevelIsFiled(lang, ts, caret, Below(lang, ts, caret, l), n - 1);
    }
  }

  /** The word LATERAL, in any case and even in quotes, with only trivia between it and the paren. */
  ghost predicate LateralBefore(u: Unicode, ts: seq<Token>, open: nat) {
    exists w: nat :: w < open < |ts| && ts[w].kind == Ident && u.upper(ts[w].value) == "LATERAL"
      && forall k | w < k < open :: ts[k].kind == Whitespace || ts[k].kind == Comment
  }

  /** The body is a derived table of the branch `[start, end)`. */
  ghost predicate IsDerived(lang: Language, ts: seq<Token>, start: nat, end: nat, b: ScopeWalk.Body) {
    exists k :: 0 <= k < |lang.derived(ts, start, end)|
      && lang.derived(ts, start, end)[k].lo == b.lo && lang.derived(ts, start, end)[k].hi == b.hi
  }

  lemma OpaqueUnlessLateral(lang: Language, ts: seq<Token>, lo: nat, hi: nat, b: ScopeWalk.Body)
    requires hi <= |ts| && IsBody(lang.unicode, ts, b, lo, hi)
    ensures b.open + 1 < |ts| && 0 < b.lo
    ensures IsOpaque(lang, ts, lo, hi, b)
       <==> IsDerived(lang, ts, lo, hi, b) && !(LateralBefore(lang.unicode, ts, b.open) && !IsTrivia(ts[b.open + 1]))
  {
    hide BaseDepth, Level, OpensQuery, IsLateral;
    LateralIsSeen(lang.unicode, ts, lo, hi, b);
    var n := Trimmed(ts, b.open);
    if LateralBefore(lang.unicode, ts, b.open) {
      var w: nat :| w < b.open < |ts| && ts[w].kind == Ident && lang.unicode.upper(ts[w].value) == "LATERAL"
        && forall k | w < k < b.open :: ts[k].kind == Whitespace || ts[k].kind == Comment;
      assert n == w + 1;
    }
  }

  /** The body entered from a level is the one declaration `k` of the level's WITH opens. */
  predicate EntersDeclared(lang: Language, ts: seq<Token>, caret: nat, l: Stage, b: ScopeWalk.Body, k: nat)
    requires l.lo <= l.hi <= |ts|
  {
    var list := WithList(lang, ts, l.lo, l.hi, l.remaining).0;
    k < |list| && Entered(lang, ts, caret, l) == Some(b) && list[k].open == b.open
  }

  /**
   At every level of the walk: a declared body it enters sees the names before it (its own too iff
   recursive) and those of a WITH of its own, with nothing around it, iff the body begins right after its
   paren; else every name in view on the level is, and so is the level's own scope.
   */
  lemma DeclaredBodySees(lang: Language, ts: seq<Token>, lo: nat, hi: nat, caret: nat, n: nat, b: ScopeWalk.Body,
                         k: nat)
    requires DepthsCount(ts) && TriviaIsNoParen(ts) && lo <= hi <= |ts|
    requires EntersDeclared(lang, ts, caret, Down(lang, ts, caret, Top(lang, ts, lo, hi), n), b, k)
    ensures var l := Down(lang, ts, caret, Top(lang, ts, lo, hi), n);
            var (list, recursive) := WithList(lang, ts, l.lo, l.hi, l.remaining);
            var all := Declarations(lang, ts, l.lo, l.hi, l.remaining);
            var own := Declarations(lang, ts, b.lo, b.hi, l.remaining - 1);
            var here := LevelScope(lang, ts, l.lo, l.hi, caret, l.view);
            var below := Below(lang, ts, caret, l);
            && ScopeOf(lang, ts, lo, hi, caret) == ScopeOn(lang, ts, caret, below)
            && (below.lo, below.hi) == (b.lo, b.hi)
            && below.view ==
                 if !IsTrivia(ts[b.open + 1]) then View(Restrict(all, Sees(list, k, recursive)) + own, None)
                 else View(l.view.ctes + own,
                           if IsDerived(lang, ts, here.lo, here.hi, b) then None else Some(here))
  {
    hide DepthsCount, TriviaIsNoParen, BehindParens, BranchOf, LevelScope, Inner, ScopeFrom, ViewOf, IsBody, WithList;
    hide BodyScopes, Declarations, IsOpaque, Sees, Restrict, Down, IsDerived, LateralBefore;
    var top := Top(lang, ts, lo, hi);
    var l := Down(lang, ts, caret, top, n);
    WalkComesThrough(lang, ts, caret, top, n);
    WalkComesThrough(lang, ts, caret, l, 1);
    OneDown(lang, ts, caret, l);
    TopIsFiled(lang, ts, lo, hi);
    EveryLevelIsFiled(lang, ts, caret, top, n);
    InnerIsBody(lang, ts, l.lo, l.hi, caret);
    LevelIs(lang, ts, l.lo, l.hi, caret, l.view);
    var here := LevelScope(lang, ts, l.lo, l.hi, caret, l.view);
    OpaqueUnlessLateral(lang, ts, here.lo, here.hi, b);
    var outer :| BehindParens(ts, outer) && l.scopes == outer + BodyScopes(lang, ts, l.lo, l.hi, l.remaining);
    ViewOfADeclaredBody(lang, ts, l.lo, l.hi, caret, b, k, here, outer, l.remaining);
  }

  /**
   At every level of the walk: a body it enters that no WITH filed has the level's own scope round it, but
   for a derived table, which has nothing, unless LATERAL stands before its paren and its query right
   behind; and it sees the names in view there, with those of a WITH of its own over them.
   */
  lemma WhoSeesOutside(lang: Language, ts: seq<Token>, lo: nat, hi: nat, caret: nat, n: nat, b: ScopeWalk.Body)
    requires DepthsCount(ts) && lo <= hi <= |ts|
    requires var l := Down(lang, ts, caret, Top(lang, ts, lo, hi), n);
             Entered(lang, ts, caret, l) == Some(b) && (b.lo, b.hi) !in l.scopes
    ensures var l := Down(lang, ts, caret, Top(lang, ts, lo, hi), n);
            var here := LevelScope(lang, ts, l.lo, l.hi, caret, l.view);
            var below := Below(lang, ts, caret, l);
            && b.open + 1 < |ts| && (below.lo, below.hi) == (b.lo, b.hi)
            && ScopeOf(lang, ts, lo, hi, caret) == ScopeOn(lang, ts, caret, below)
            && below.view.ctes == l.view.ctes + Declarations(lang, ts, b.lo, b.hi, l.remaining - 1)
            && below.view.parent
               == (if IsDerived(lang, ts, here.lo, here.hi, b)
                      && !(LateralBefore(lang.unicode, ts, b.open) && !IsTrivia(ts[b.open + 1])) then None
                   else Some(here))
            && (Entered(lang, ts, caret, below).None? ==>
                  ScopeOf(lang, ts, lo, hi, caret).parent == below.view.parent)
  {
    hide DepthsCount, BranchOf, LevelScope, Inner, ScopeFrom, IsBody, BodyScopes, Declarations, IsOpaque, Down;
    hide IsDerived, LateralBefore;
    var top := Top(lang, ts, lo, hi);
    var l := Down(lang, ts, caret, top, n);
    WalkComesThrough(lang, ts, caret, top, n);
    WalkComesThrough(lang, ts, caret, l, 1);
    OneDown(lang, ts, caret, l);
    InnerIsBody(lang, ts, l.lo, l.hi, caret);
    LevelIs(lang, ts, l.lo, l.hi, caret, l.view);
    var here, below := LevelScope(lang, ts, l.lo, l.hi, caret, l.view), Below(lang, ts, caret, l);
    OpaqueUnlessLateral(lang, ts, here.lo, here.hi, b);
    if Entered(lang, ts, caret, below).None? {
      WalkStep(lang, ts, below.lo, below.hi, caret, below.view, below.scopes, below.remaining);
      LevelIs(lang, ts, below.lo, below.hi, caret, below.view);
    }
  }

  lemma OneDown(lang: Language, ts: seq<Token>, caret: nat, l: Stage)
    requires l.lo <= l.hi <= |ts| && Entered(lang, ts, caret, l).Some?
    ensures Down(lang, ts, caret, l, 1) == Below(lang, ts, caret, l)
  {
    hide LevelScope, Inner, ViewOf, Declarations, BodyScopes;
    assert Down(lang, ts, caret, Below(lang, ts, caret, l), 0) == Below(lang, ts, caret, l);
  }

  lemma TopIsFiled(lang: Language, ts: seq<Token>, lo: nat, hi: nat)
    requires hi <= |ts|
    ensures IsFiled(lang, ts, Top(lang, ts, lo, hi))
  {
    hide Declarations, BodyScopes;
    var scopes := BodyScopes(lang, ts, lo, hi, MAX_NESTING);
    assert BehindParens(ts, map[]) && map[] + scopes == scopes;
  }

  /** On a lexed text no trivia is spelled like a paren, unless a line comment begins with one. */
  lemma LexedTriviaIsNoParen(u: Unicode, y: Syntax, src: string)
    requires Sound(u) && forall m | m in y.lineComments :: m != "" && m[0] != '('
    ensures TriviaIsNoParen(Lexed(u, y, src))
  {
    hide Sound, LexFrom;
    var ts := Lexed(u, y, src);
    forall i | 0 <= i < |ts| && IsTrivia(ts[i]) ensures ts[i].text != "(" {
      TriviaFrom(u, y, src, 0, 0, i);
    }
  }

  lemma {:induction false} TriviaFrom(u: Unicode, y: Syntax, s: string, pos: nat, depth: nat, i: nat)
    requires Sound(u) && (forall m | m in y.lineComments :: m != "" && m[0] != '(')
    requires i < |LexFrom(u, y, s, pos, depth)| && IsTrivia(LexFrom(u, y, s, pos, depth)[i])
    ensures LexFrom(u, y, s, pos, depth)[i].text != "("
    decreases |s|
  {
    hide Next, Sound;
    var x := Next(u, y, s);
    if i == 0 {
      TriviaNext(u, y, s);
    } else {
      TriviaFrom(u, y, s[x.len..], pos + x.len, DepthAfter(x, depth), i - 1);
    }
  }

  lemma TriviaNext(u: Unicode, y: Syntax, s: string)
    requires Sound(u) && s != [] && forall m | m in y.lineComments :: m != "" && m[0] != '('
    ensures var x := Next(u, y, s); x.kind == Whitespace || x.kind == Comment ==> s[0] != '('
  {
    SymbolsAreInert(u, '(');
    hide Sound, MatchedOperator, StringLexeme, LineComment, DollarQuote, NumberLength, FirstPlaceholder, NextWord;
    WordIsNoTrivia(u, y, s);
  }

  lemma WordIsNoTrivia(u: Unicode, y: Syntax, s: string)
    requires Sound(u) && s != []
    ensures var x := NextWord(u, y, s); x.kind != Whitespace && x.kind != Comment
  {
    hide Sound, MatchedOperator, NumberLength;
  }
}
