/**
 Writing a name so that this engine reads it back (rank.quote_if_needed), and reading a
 dotted path (analyse._read_dotted_path): each undoes the other.
 */
module Quoting {
  import opened Text
  import opened Lexer

  /** What quoting needs of a dialect: how it lexes, and the words it reserves, lower-cased. */
  datatype Dialect = Dialect(syntax: Syntax, reserved: set<string>)

  predicate IsNonAscii(c: char) {
    '\U{80}' <= c <= '\U{FFFF}'
  }

  predicate IsPlainHead(y: Syntax, c: char) {
    || (if y.unquotedCase == Lower then 'a' <= c <= 'z' else IsAsciiLetter(c))
    || c == '_'
    || (y.unquotedNonAscii && IsNonAscii(c))
  }

  predicate IsPlainTail(y: Syntax, c: char) {
    IsAsciiLetter(c) || '0' <= c <= '9' || c == '_' || c in y.unquotedExtra || (y.unquotedNonAscii && IsNonAscii(c))
  }

  /** The unquoted-identifier pattern a dialect's server accepts (_plain_identifier). */
  predicate IsPlain(y: Syntax, name: string) {
    && name != ""
    && IsPlainHead(y, name[0])
    && forall i | 1 <= i < |name| :: IsPlainTail(y, name[i])
  }

  predicate ReadsAsOneIdentifier(u: Unicode, name: string) {
    name != "" && IsIdentStart(u, name[0]) && forall i | 1 <= i < |name| :: IsIdentChar(u, name[i])
  }

  predicate NeedsQuoting(u: Unicode, d: Dialect, name: string) {
    if name == "" then true
    else if u.lower(name) in d.reserved then true
    else if !ReadsAsOneIdentifier(u, name) then true
    else match d.syntax.unquotedCase
      case Preserve => !IsPlain(d.syntax, name)
      case Upper => name != u.upper(name) || !IsPlain(d.syntax, name)
      case Lower => name != u.lower(name) || !IsPlain(d.syntax, name)
  }

  /** `name.replace(quote, quote * 2)`. */
  function Doubled(name: string, quote: char): string {
    if name == "" then "" else (if name[0] == quote then [quote, quote] else [name[0]]) + Doubled(name[1..], quote)
  }

  function QuoteIfNeeded(u: Unicode, d: Dialect, name: string): string
    requires d.syntax.identifierQuotes != []
  {
    if !NeedsQuoting(u, d, name) then
      name
    else
      var quote := d.syntax.identifierQuotes[0];
      [quote] + Doubled(name, quote) + [quote]
  }

  /** The path written out: every part quoted as it needs, joined with dots. */
  function Written(u: Unicode, d: Dialect, path: seq<string>): string
    requires d.syntax.identifierQuotes != []
  {
    if path == [] then ""
    else if |path| == 1 then QuoteIfNeeded(u, d, path[0])
    else QuoteIfNeeded(u, d, path[0]) + "." + Written(u, d, path[1..])
  }

  // ------------------------------------------------------------ reading a path

  predicate IsTrivia(t: Token) {
    t.kind == Whitespace || t.kind == Comment
  }

  /** The next index at or after `i` that is not trivia. */
  function SkipForward(ts: seq<Token>, i: nat, hi: nat): (r: nat)
    requires hi <= |ts|
    ensures i <= r && (r < hi ==> !IsTrivia(ts[r]))
    ensures i <= hi ==> r <= hi
    ensures forall k | i <= k < r && k < hi :: IsTrivia(ts[k])
    decreases hi - i
  {
    if i < hi && IsTrivia(ts[i]) then SkipForward(ts, i + 1, hi) else i
  }

  /** `ident (. ident)*` from `index`, and where it ends. */
  function DottedPath(ts: seq<Token>, index: nat, hi: nat): (r: (seq<Token>, nat))
    requires index < hi <= |ts|
    ensures index < r.1 <= hi && r.0 != [] && r.0[0] == ts[index]
    decreases hi - index
  {
    var probe := SkipForward(ts, index + 1, hi);
    if probe >= hi || !IsPunct(ts[probe], ".") then
      ([ts[index]], index + 1)
    else
      var next := SkipForward(ts, probe + 1, hi);
      if next >= hi || ts[next].kind != Ident then
        ([ts[index]], index + 1)
      else
        var (rest, end) := DottedPath(ts, next, hi);
        ([ts[index]] + rest, end)
  }

  method ReadDottedPath(ts: seq<Token>, start: nat, hi: nat) returns (path: seq<Token>, index: nat)
    requires start < hi <= |ts|
    ensures (path, index) == DottedPath(ts, start, hi)
  {
    hide DottedPath, SkipForward;
    path := [ts[start]];
    index := start + 1;
    ghost var read: seq<Token> := [];
    assert read + DottedPath(ts, start, hi).0 == DottedPath(ts, start, hi).0;
    while true
      invariant start < index <= hi && path == read + [ts[index - 1]]
      invariant Continues(read, DottedPath(ts, index - 1, hi)) == DottedPath(ts, start, hi)
      decreases hi - index
    {
      var probe := SkipForward(ts, index, hi);
      if probe >= hi || !IsPunct(ts[probe], ".") {
        PathStops(ts, index - 1, hi);
        return;
      }
      var next := SkipForward(ts, probe + 1, hi);
      if next >= hi || ts[next].kind != Ident {
        PathStops(ts, index - 1, hi);
        return;
      }
      ghost var rest := DottedPath(ts, next, hi);
      PathContinues(ts, index - 1, probe, next, hi);
      assert read + ([ts[index - 1]] + rest.0) == path + rest.0;
      read := path;
      path := path + [ts[next]];
      index := next + 1;
    }
  }

  lemma PathContinues(ts: seq<Token>, i: nat, probe: nat, next: nat, hi: nat)
    requires i < hi <= |ts| && probe == SkipForward(ts, i + 1, hi) < hi && IsPunct(ts[probe], ".")
    requires next == SkipForward(ts, probe + 1, hi) < hi && ts[next].kind == Ident
    ensures var rest := DottedPath(ts, next, hi); DottedPath(ts, i, hi) == ([ts[i]] + rest.0, rest.1)
  {
  }

  lemma PathStops(ts: seq<Token>, i: nat, hi: nat)
    requires i < hi <= |ts|
    requires var probe := SkipForward(ts, i + 1, hi);
             probe < hi && IsPunct(ts[probe], ".")
             ==> var next := SkipForward(ts, probe + 1, hi); next >= hi || ts[next].kind != Ident
    ensures DottedPath(ts, i, hi) == ([ts[i]], i + 1)
  {
  }

  function Continues(read: seq<Token>, rest: (seq<Token>, nat)): (seq<Token>, nat) {
    (read + rest.0, rest.1)
  }

  // -------------------------------------------------------- the two undo each other

  /** A delimiter that can stand neither in a bare name nor where a path's quote or dot does. */
  predicate Apart(y: Syntax, opener: string) {
    opener != "" && IsSymbol(opener[0]) && opener[0] != '_' && opener[0] != '.' && opener[0] !in y.identifierQuotes
  }

  /** The quotes, comments and placeholders of a dialect begin with different symbols. */
  ghost predicate Quotable(y: Syntax) {
    && y.identifierQuotes != []
    && y.escapeStringPrefix != "."
    && (forall c | c in y.identifierQuotes ::
          IsSymbol(c) && c != '\'' && c != '/' && c != '$' && c != '.' && c != '_' && y.escapeStringPrefix != [c])
    && (forall m | m in y.lineComments :: Apart(y, m))
    && (forall p | p in y.placeholders && p.opens != "" :: Apart(y, p.opens))
  }

  /** What may follow a written name: nothing, or a dot. */
  predicate EndsName(rest: string) {
    rest == "" || rest[0] == '.'
  }

  lemma {:induction false} DoubledReads(name: string, quote: char, rest: string)
    requires EndsName(rest) && quote != '.'
    ensures QuotedBody(Doubled(name, quote) + [quote] + rest, quote)
         == NameScan(|Doubled(name, quote)| + 1, name, true)
  {
    var s := Doubled(name, quote) + [quote] + rest;
    if name != "" {
      var tail := Doubled(name[1..], quote) + [quote] + rest;
      DoubledReads(name[1..], quote, rest);
      assert name == [name[0]] + name[1..];
      if name[0] == quote {
        assert s == [quote, quote] + tail;
        assert s[2..] == tail;
      } else {
        assert s == [name[0]] + tail;
        assert s[1..] == tail;
      }
    }
  }

  lemma {:induction false} NoPlaceholder(u: Unicode, ps: seq<Placeholder>, s: string)
    requires forall p | p in ps :: p.opens != "" && !(p.opens <= s)
    ensures FirstPlaceholder(u, ps, s).None?
  {
    if ps != [] {
      NoPlaceholder(u, ps[1..], s);
    }
  }

  /** A first character that is no delimiter, unless it quotes a name. */
  predicate StartsWord(u: Unicode, y: Syntax, c: char) {
    !u.space(c) && c != '/' && c != '\'' && c != '$'
    && (!IsSymbol(c) || c == '_' || c == '.' || c in y.identifierQuotes)
  }

  /** A first character no delimited form begins with reaches the name branches. */
  lemma ReachesWord(u: Unicode, y: Syntax, s: string)
    requires Sound(u) && Quotable(y) && s != []
    requires StartsWord(u, y, s[0]) && !OpensEscapeString(u, y, s)
    ensures Next(u, y, s) == NextWord(u, y, s)
  {
    hide Sound, NextWord, IsSymbol;
    forall i | 0 <= i < |y.lineComments|
      ensures !(y.lineComments[i] <= s)
    {
      assert Apart(y, y.lineComments[i]);
    }
    forall p | p in Tried(y)
      ensures p.opens != "" && !(p.opens <= s)
    {
      assert Apart(y, p.opens);
    }
    NoPlaceholder(u, Tried(y), s);
  }

  lemma IdentStartsWord(u: Unicode, y: Syntax, c: char)
    requires Sound(u) && Quotable(y) && IsIdentStart(u, c)
    ensures StartsWord(u, y, c) && c !in y.identifierQuotes
  {
    assert IsSymbol('_') && IsSymbol('/') && IsSymbol('\'') && IsSymbol('$');
  }

  lemma BareNameLexes(u: Unicode, d: Dialect, name: string, rest: string)
    requires Sound(u) && Quotable(d.syntax) && EndsName(rest) && !NeedsQuoting(u, d, name)
    ensures Next(u, d.syntax, name + rest) == Lexeme(Ident, |name|, name, false, true)
  {
    var s := name + rest;
    assert IsSymbol('.') && IsSymbol('\'');
    SymbolsAreInert(u, '.');
    SymbolsAreInert(u, '\'');
    IdentStartsWord(u, d.syntax, s[0]);
    hide Next;
    assert |s| > 1 ==> s[1] != '\'' by {
      assert |name| > 1 ==> IsIdentChar(u, name[1]);
    }
    ReachesWord(u, d.syntax, s);
    assert IsIdentChar(u, name[0]);
    hide Sound, IsSymbol;
    RunIs(IdentChars(u), s, |name|);
    assert s[..|name|] == name;
  }

  /** The escape prefix of a quotable dialect is no quote and no dot. */
  lemma NoEscapePrefix(u: Unicode, y: Syntax, s: string)
    requires Sound(u) && Quotable(y) && s != [] && (s[0] in y.identifierQuotes || s[0] == '.')
    ensures !OpensEscapeString(u, y, s) && StartsWord(u, y, s[0])
  {
    assert IsSymbol('.');
    SymbolsAreInert(u, s[0]);
    assert [s[0]] != y.escapeStringPrefix;
  }

  lemma QuoteBranch(u: Unicode, y: Syntax, s: string)
    requires Sound(u) && s != [] && s[0] in y.identifierQuotes
    ensures var name := QuotedBody(s[1..], s[0]);
            NextWord(u, y, s) == Lexeme(Ident, 1 + name.len, name.value, true, name.terminated)
  {
    hide Sound, QuotedBody, MatchedOperator, NumberLength;
  }

  lemma DotBranch(u: Unicode, y: Syntax, s: string)
    requires Sound(u) && s != [] && s[0] == '.' && Inert(u, '.') && '.' !in y.identifierQuotes
    ensures NextWord(u, y, s) == Lexeme(Punct, 1, ".", false, true)
  {
    hide Sound, QuotedBody, MatchedOperator, NumberLength;
    assert s[..1] == ".";
  }

  lemma QuotedTextLexes(u: Unicode, y: Syntax, q: char, name: string, rest: string)
    requires Sound(u) && Quotable(y) && EndsName(rest) && q in y.identifierQuotes
    ensures Next(u, y, [q] + (Doubled(name, q) + [q] + rest)) == Lexeme(Ident, |Doubled(name, q)| + 2, name, true, true)
  {
    var body := Doubled(name, q) + [q] + rest;
    var s := [q] + body;
    assert q != '.' && s[1..] == body;
    hide Next, NextWord, Sound, Quotable, QuotedBody, Doubled;
    NoEscapePrefix(u, y, s);
    ReachesWord(u, y, s);
    QuoteBranch(u, y, s);
    DoubledReads(name, q, rest);
  }

  lemma QuotedNameLexes(u: Unicode, d: Dialect, name: string, rest: string)
    requires Sound(u) && Quotable(d.syntax) && EndsName(rest) && NeedsQuoting(u, d, name)
    ensures var w := QuoteIfNeeded(u, d, name);
            Next(u, d.syntax, w + rest) == Lexeme(Ident, |w|, name, true, true)
  {
    var q := d.syntax.identifierQuotes[0];
    assert q in d.syntax.identifierQuotes;
    assert QuoteIfNeeded(u, d, name) + rest == [q] + (Doubled(name, q) + [q] + rest);
    hide Next, Sound, NeedsQuoting, Quotable, Doubled;
    QuotedTextLexes(u, d.syntax, q, name, rest);
  }

  lemma DotLexes(u: Unicode, y: Syntax, rest: string)
    requires Sound(u) && Quotable(y)
    ensures Next(u, y, "." + rest) == Lexeme(Punct, 1, ".", false, true)
  {
    var s := "." + rest;
    assert IsSymbol('.');
    SymbolsAreInert(u, '.');
    assert '.' !in y.identifierQuotes;
    hide Next, NextWord, Sound, IsSymbol, Quotable;
    NoEscapePrefix(u, y, s);
    ReachesWord(u, y, s);
    DotBranch(u, y, s);
  }

  /** One token spells one name of the path. */
  predicate Named(t: Token, name: string) {
    t.kind == Ident && t.value == name && t.terminated
  }

  ghost predicate AllNamed(ts: seq<Token>, path: seq<string>) {
    |ts| == |path| && forall i | 0 <= i < |path| :: Named(ts[i], path[i])
  }

  lemma NameLexes(u: Unicode, d: Dialect, name: string, rest: string)
    requires Sound(u) && Quotable(d.syntax) && EndsName(rest)
    ensures var w := QuoteIfNeeded(u, d, name);
            && w != ""
            && Next(u, d.syntax, w + rest) == Lexeme(Ident, |w|, name, NeedsQuoting(u, d, name), true)
  {
    hide Sound, Next;
    if NeedsQuoting(u, d, name) {
      QuotedNameLexes(u, d, name, rest);
    } else {
      BareNameLexes(u, d, name, rest);
    }
  }

  /** Text that reads as one name is one token, and what follows it lexes on its own. */
  lemma NameStep(u: Unicode, y: Syntax, w: string, name: string, rest: string, ts: seq<Token>, i: nat, pos: nat,
                 depth: nat)
    requires Sound(u) && w != "" && i <= |ts| && ts[i..] == LexFrom(u, y, w + rest, pos, depth)
    requires var x := Next(u, y, w + rest); x.kind == Ident && x.len == |w| && x.value == name && x.terminated
    ensures i < |ts| && Named(ts[i], name) && ts[i + 1..] == LexFrom(u, y, rest, pos + |w|, depth)
  {
    hide Sound, Next, LexFrom;
    LexStep(u, y, w + rest, pos, depth);
    assert (w + rest)[|w|..] == rest;
    assert ts[i + 1..] == ts[i..][1..];
  }

  lemma DotStep(u: Unicode, y: Syntax, rest: string, ts: seq<Token>, i: nat, pos: nat, depth: nat)
    requires Sound(u) && Quotable(y) && i <= |ts| && ts[i..] == LexFrom(u, y, "." + rest, pos, depth)
    ensures i < |ts| && IsPunct(ts[i], ".") && ts[i + 1..] == LexFrom(u, y, rest, pos + 1, depth)
  {
    hide Sound, Quotable, Next, LexFrom;
    DotLexes(u, y, rest);
    LexStep(u, y, "." + rest, pos, depth);
    var s := "." + rest;
    assert s[1..] == rest && s[..1] == ".";
    assert ts[i + 1..] == ts[i..][1..];
  }

  /** What stands after the first name of a written path. */
  function AfterFirst(u: Unicode, d: Dialect, path: seq<string>): (rest: string)
    requires d.syntax.identifierQuotes != [] && path != []
    ensures EndsName(rest)
    ensures Written(u, d, path) == QuoteIfNeeded(u, d, path[0]) + rest
  {
    if |path| == 1 then
      assert QuoteIfNeeded(u, d, path[0]) + "" == QuoteIfNeeded(u, d, path[0]);
      ""
    else
      var rest := "." + Written(u, d, path[1..]);
      assert QuoteIfNeeded(u, d, path[0]) + "." + Written(u, d, path[1..]) == QuoteIfNeeded(u, d, path[0]) + rest;
      rest
  }

  lemma AllSpellCons(t: Token, ts: seq<Token>, path: seq<string>)
    requires path != [] && Named(t, path[0]) && AllNamed(ts, path[1..])
    ensures AllNamed([t] + ts, path)
  {
    assert forall i | 1 <= i < |path| :: path[i] == path[1..][i - 1];
  }

  /** The first name of a written path is one token. */
  lemma FirstSpells(u: Unicode, d: Dialect, path: seq<string>, ts: seq<Token>, i: nat, pos: nat, depth: nat)
    requires Sound(u) && Quotable(d.syntax) && path != [] && i <= |ts|
    requires ts[i..] == LexFrom(u, d.syntax, Written(u, d, path), pos, depth)
    ensures i < |ts| && Named(ts[i], path[0])
    ensures ts[i + 1..]
         == LexFrom(u, d.syntax, AfterFirst(u, d, path), pos + |QuoteIfNeeded(u, d, path[0])|, depth)
  {
    hide Sound, Next, QuoteIfNeeded, NeedsQuoting, LexFrom, Written, AfterFirst, EndsName;
    var w, rest := QuoteIfNeeded(u, d, path[0]), AfterFirst(u, d, path);
    NameLexes(u, d, path[0], rest);
    NameStep(u, d.syntax, w, path[0], rest, ts, i, pos, depth);
  }

  lemma {:induction false} WrittenReads(u: Unicode, d: Dialect, path: seq<string>, ts: seq<Token>, i: nat, pos: nat,
                                        depth: nat)
    requires Sound(u) && Quotable(d.syntax) && path != [] && i <= |ts|
    requires ts[i..] == LexFrom(u, d.syntax, Written(u, d, path), pos, depth)
    ensures i < |ts| && DottedPath(ts, i, |ts|).1 == |ts| && AllNamed(DottedPath(ts, i, |ts|).0, path)
    decreases |path|
  {
    hide Sound, QuoteIfNeeded, NeedsQuoting, LexFrom, Written, DottedPath, AllNamed;
    FirstSpells(u, d, path, ts, i, pos, depth);
    var after := pos + |QuoteIfNeeded(u, d, path[0])|;
    if |path| == 1 {
      EmptyLexes(u, d.syntax, after, depth);
      LastSpells(ts, i, path);
      return;
    }
    var more := Written(u, d, path[1..]);
    DotStep(u, d.syntax, more, ts, i + 1, after, depth);
    WrittenReads(u, d, path[1..], ts, i + 2, after + 1, depth);
    NextSpells(ts, i, path);
  }

  lemma LastSpells(ts: seq<Token>, i: nat, path: seq<string>)
    requires i + 1 == |ts| && |path| == 1 && Named(ts[i], path[0])
    ensures DottedPath(ts, i, |ts|).1 == |ts| && AllNamed(DottedPath(ts, i, |ts|).0, path)
  {
  }

  lemma NextSpells(ts: seq<Token>, i: nat, path: seq<string>)
    requires i + 2 < |ts| && |path| > 1 && Named(ts[i], path[0]) && IsPunct(ts[i + 1], ".")
    requires DottedPath(ts, i + 2, |ts|).1 == |ts| && AllNamed(DottedPath(ts, i + 2, |ts|).0, path[1..])
    ensures DottedPath(ts, i, |ts|).1 == |ts| && AllNamed(DottedPath(ts, i, |ts|).0, path)
  {
    hide DottedPath;
    var rest := DottedPath(ts, i + 2, |ts|).0;
    assert Named(rest[0], path[1..][0]);
    PathStep(ts, i, |ts|);
    AllSpellCons(ts[i], rest, path);
  }

  /** A path goes on past a dot and a name that stand right after its first token. */
  lemma PathStep(ts: seq<Token>, i: nat, hi: nat)
    requires i + 2 < hi <= |ts| && IsPunct(ts[i + 1], ".")
    requires ts[i + 2].kind == Ident
    ensures var rest := DottedPath(ts, i + 2, hi);
            DottedPath(ts, i, hi) == ([ts[i]] + rest.0, rest.1)
  {
    assert SkipForward(ts, i + 1, hi) == i + 1;
    assert SkipForward(ts, i + 2, hi) == i + 2;
  }

  /**
   Writing a path and reading it back: for any names at all, the text written lexes to
   tokens of which the dotted path takes every one, and each name comes back as it was.
   */
  lemma WritingUndoesReading(u: Unicode, d: Dialect, path: seq<string>)
    requires Sound(u) && Quotable(d.syntax) && path != []
    ensures var ts := Lexed(u, d.syntax, Written(u, d, path));
            ts != [] && DottedPath(ts, 0, |ts|).1 == |ts| && AllNamed(DottedPath(ts, 0, |ts|).0, path)
  {
    var ts := Lexed(u, d.syntax, Written(u, d, path));
    assert ts[0..] == ts;
    WrittenReads(u, d, path, ts, 0, 0, 0);
  }

  // -------------------------------------------------- which names are written bare

  /** A letter, digit or underscore, or what else the dialect's server takes unquoted, in the case it keeps. */
  predicate IsKept(y: Syntax, c: char, first: bool) {
    || c == '_' || ('a' <= c <= 'z') || ('A' <= c <= 'Z' && !(first && y.unquotedCase == Lower))
    || (y.unquotedNonAscii && '\U{80}' <= c <= '\U{FFFF}')
    || (!first && ('0' <= c <= '9' || c in y.unquotedExtra))
  }

  /**
   A name is written bare exactly when no word is reserved that it differs from by case alone, it reads as one
   name, its server takes every character of it unquoted, and it is in the case that server folds to. Any
   other is written between the dialect's first quotes.
   */
  lemma NamesWrittenBare(u: Unicode, d: Dialect, name: string)
    requires d.syntax.identifierQuotes != []
    ensures QuoteIfNeeded(u, d, name) == name
       <==> && name != "" && u.lower(name) !in d.reserved
            && IsIdentStart(u, name[0]) && (forall i | 0 < i < |name| :: IsIdentChar(u, name[i]))
            && IsKept(d.syntax, name[0], true) && (forall i | 0 < i < |name| :: IsKept(d.syntax, name[i], false))
            && (d.syntax.unquotedCase == Upper ==> u.upper(name) == name)
            && (d.syntax.unquotedCase == Lower ==> u.lower(name) == name)
    ensures var w := QuoteIfNeeded(u, d, name);
            w != name ==> |w| >= 2 && w[0] == w[|w| - 1] == d.syntax.identifierQuotes[0]
  {
    DoublingLengthens(name, d.syntax.identifierQuotes[0]);
  }

  lemma {:induction false} DoublingLengthens(name: string, quote: char)
    ensures |Doubled(name, quote)| >= |name|
  {
    if name != "" {
      DoublingLengthens(name[1..], quote);
    }
  }

  // ------------------------------------------------------------ which paths are read

  /** A dot and a name come next after the token `i`, with only trivia besides. */
  ghost predicate IsStep(ts: seq<Token>, i: nat, dot: nat, next: nat, hi: nat) {
    && i < dot < next < hi <= |ts| && IsPunct(ts[dot], ".") && ts[next].kind == Ident
    && (forall j | i < j < dot || dot < j < next :: IsTrivia(ts[j]))
  }

  /** Names at `at`, each a step from the one before over the dot between them. */
  ghost predicate IsPath(ts: seq<Token>, at: seq<nat>, dots: seq<nat>, hi: nat) {
    && |at| == |dots| + 1 && at[0] < hi <= |ts|
    && forall k | 0 <= k < |dots| :: IsStep(ts, at[k], dots[k], at[k + 1], hi)
  }

  /** The path read from a token is the longest there is, over any trivia, and ends right behind its last name. */
  lemma {:induction false} LongestPathIsRead(ts: seq<Token>, at: seq<nat>, dots: seq<nat>, hi: nat)
    requires IsPath(ts, at, dots, hi) && forall dot, next :: !IsStep(ts, at[|dots|], dot, next, hi)
    ensures var (path, end) := DottedPath(ts, at[0], hi);
            end == at[|dots|] + 1 && |path| == |at| && forall k | 0 <= k < |at| :: at[k] < hi && path[k] == ts[at[k]]
    decreases |at|
  {
    hide SkipForward;
    var probe := SkipForward(ts, at[0] + 1, hi);
    if dots == [] {
      if probe < hi && IsPunct(ts[probe], ".") {
        var next := SkipForward(ts, probe + 1, hi);
        assert !IsStep(ts, at[0], probe, next, hi);
      }
      PathStops(ts, at[0], hi);
    } else {
      assert IsStep(ts, at[0], dots[0], at[1], hi) by { assert at[0 + 1] == at[1]; }
      FirstIs(ts, at[0] + 1, dots[0], hi);
      FirstIs(ts, dots[0] + 1, at[1], hi);
      RestIsPath(ts, at, dots, hi);
      LongestPathIsRead(ts, at[1..], dots[1..], hi);
      PathContinues(ts, at[0], dots[0], at[1], hi);
    }
  }

  lemma RestIsPath(ts: seq<Token>, at: seq<nat>, dots: seq<nat>, hi: nat)
    requires IsPath(ts, at, dots, hi) && dots != []
    ensures IsPath(ts, at[1..], dots[1..], hi)
  {
    hide IsStep;
    assert IsStep(ts, at[0], dots[0], at[0 + 1], hi);
    assert at[1] < hi by { StepIsInside(ts, at[0], dots[0], at[1], hi); }
    forall k | 0 <= k < |dots[1..]| ensures IsStep(ts, at[1..][k], dots[1..][k], at[1..][k + 1], hi) {
      assert IsStep(ts, at[k + 1], dots[k + 1], at[k + 1 + 1], hi);
    }
  }

  lemma StepIsInside(ts: seq<Token>, i: nat, dot: nat, next: nat, hi: nat)
    requires IsStep(ts, i, dot, next, hi)
    ensures next < hi <= |ts|
  {
  }

  lemma {:induction false} FirstIs(ts: seq<Token>, i: nat, at: nat, hi: nat)
    requires i <= at < hi <= |ts| && !IsTrivia(ts[at]) && forall j | i <= j < at :: IsTrivia(ts[j])
    ensures SkipForward(ts, i, hi) == at
    decreases at - i
  {
    if i < at {
      FirstIs(ts, i + 1, at, hi);
    }
  }
}
