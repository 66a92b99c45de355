/**
 The tolerant scanner of engine/lex.py.

 Each scanner is described by a function on what is left of the source from where
 it stands, and written beside it as the loop the source runs. `Next` says what
 one turn of the main loop reads, `LexFrom` what the whole loop appends.
 */
module Lexer {
  import opened Wrappers
  import opened Text
  import Sorting

  datatype Kind = Ident | Number | Str | Param | Comment | Operator | Punct | Whitespace | Unknown

  datatype Token = Token(
    kind: Kind,
    start: nat,
    end: nat,
    text: string,
    value: string,
    quoted: bool,
    terminated: bool,
    depth: nat)

  datatype Body = Name | Digits | Nothing | Any

  datatype Placeholder = Placeholder(opens: string, body: Body, closes: string)

  datatype Case = Lower | Upper | Preserve

  /** What the scanner needs of a dialect. An absent operator or prefix is the empty string. */
  datatype Syntax = Syntax(
    identifierQuotes: seq<char>,
    lineComments: seq<string>,
    nestedBlockComments: bool,
    stringEscapeBackslash: bool,
    unquotedCase: Case,
    dollarQuoting: bool,
    castOperator: string,
    escapeStringPrefix: string,
    unquotedExtra: string,
    unquotedNonAscii: bool,
    placeholders: seq<Placeholder>)

  const MULTI_CHAR_OPERATORS: seq<string> := ["<=", ">=", "<>", "!=", "||", "->>", "->", "#>>", "#>"]

  predicate IsOperatorChar(c: char) {
    c == '+' || c == '-' || c == '*' || c == '/' || c == '%' || c == '=' || c == '<' || c == '>' || c == '|' || c == '&'
    || c == '^' || c == '~' || c == '!' || c == '@' || c == '#' || c == '?' || c == ':'
  }

  predicate IsPunctuation(c: char) {
    c == '.' || c == ',' || c == '(' || c == ')' || c == ';' || c == '[' || c == ']'
  }

  predicate IsExponent(c: char) {
    c == 'e' || c == 'E'
  }

  predicate IsSign(c: char) {
    c == '+' || c == '-'
  }

  /** How far a scanner got and whether it met its closing delimiter. */
  datatype Scan = Scan(len: nat, terminated: bool)

  function Further(n: nat, scan: Scan): Scan {
    Scan(n + scan.len, scan.terminated)
  }

  /** What a quoted name scanner got, with the name it spells. */
  datatype NameScan = NameScan(len: nat, value: string, terminated: bool)

  /** One lexical unit, before it is given a place. */
  datatype Lexeme = Lexeme(kind: Kind, len: nat, value: string, quoted: bool, terminated: bool)

  // ---------------------------------------------------------------- scanners

  /** A scan that read `n` characters spelling `value` before `rest`. */
  function After(n: nat, value: string, rest: NameScan): NameScan {
    NameScan(n + rest.len, value + rest.value, rest.terminated)
  }

  lemma AfterTwice(n: nat, value: string, m: nat, more: string, rest: NameScan)
    ensures After(n, value, After(m, more, rest)) == After(n + m, value + more, rest)
  {
    assert value + (more + rest.value) == value + more + rest.value;
  }

  /** The rest of a quoted name, after its opening quote. */
  function QuotedBody(s: string, quote: char): (r: NameScan)
    ensures r.len <= |s|
    ensures r.terminated ==> 0 < r.len
    decreases |s|
  {
    if s == [] then
      NameScan(0, "", false)
    else if s[0] == quote then
      if |s| > 1 && s[1] == quote then
        After(2, [quote], QuotedBody(s[2..], quote))
      else
        NameScan(1, "", true)
    else
      After(1, [s[0]], QuotedBody(s[1..], quote))
  }

  method ScanQuotedIdent(src: string, pos: nat, quote: char) returns (end: nat, value: string, terminated: bool)
    requires pos < |src|
    ensures pos < end <= |src|
    ensures NameScan(end - pos - 1, value, terminated) == QuotedBody(src[pos + 1..], quote)
  {
    var i := pos + 1;
    value := "";
    while i < |src|
      invariant pos < i <= |src|
      invariant After(i - pos - 1, value, QuotedBody(src[i..], quote)) == QuotedBody(src[pos + 1..], quote)
    {
      assert src[i..][1..] == src[i + 1..];
      if src[i] == quote {
        if i + 1 < |src| && src[i + 1] == quote {
          assert src[i..][2..] == src[i + 2..];
          AfterTwice(i - pos - 1, value, 2, [quote], QuotedBody(src[i + 2..], quote));
          value := value + [quote];
          i := i + 2;
          continue;
        }
        return i + 1, value + "", true;
      }
      AfterTwice(i - pos - 1, value, 1, [src[i]], QuotedBody(src[i + 1..], quote));
      value := value + [src[i]];
      i := i + 1;
    }
    return |src|, value + "", false;
  }

  /** The rest of a single-quoted literal, after its opening quote. */
  function StringBody(s: string, escapes: bool): (r: Scan)
    ensures r.len <= |s|
    decreases |s|
  {
    if s == [] then
      Scan(0, false)
    else if s[0] == '\\' && escapes then
      if |s| == 1 then Scan(1, false) else Further(2, StringBody(s[2..], escapes))
    else if s[0] == '\'' then
      if |s| > 1 && s[1] == '\'' then Further(2, StringBody(s[2..], escapes)) else Scan(1, true)
    else
      Further(1, StringBody(s[1..], escapes))
  }

  method ScanString(src: string, pos: nat, y: Syntax, escapes: bool) returns (end: nat, terminated: bool)
    requires pos < |src|
    ensures pos < end <= |src|
    ensures Scan(end - pos - 1, terminated) == StringBody(src[pos + 1..], escapes || y.stringEscapeBackslash)
  {
    var i := pos + 1;
    var backslash := escapes || y.stringEscapeBackslash;
    while i < |src|
      invariant pos < i <= |src| + 1
      invariant StringBody(src[pos + 1..], backslash)
             == if i <= |src| then Further(i - pos - 1, StringBody(src[i..], backslash))
                else Scan(|src| - pos - 1, false)
    {
      assert src[i..][1..] == src[i + 1..];
      var ch := src[i];
      if ch == '\\' && (escapes || y.stringEscapeBackslash) {
        if i + 1 < |src| { assert src[i..][2..] == src[i + 2..]; }
        i := i + 2;
        continue;
      }
      if ch == '\'' {
        if i + 1 < |src| && src[i + 1] == '\'' {
          assert src[i..][2..] == src[i + 2..];
          i := i + 2;
          continue;
        }
        return i + 1, true;
      }
      i := i + 1;
    }
    return |src|, false;
  }

  predicate OpensComment(s: string) {
    |s| > 1 && s[0] == '/' && s[1] == '*'
  }

  predicate ClosesComment(s: string) {
    |s| > 1 && s[0] == '*' && s[1] == '/'
  }

  /** The rest of a block comment `level` openers deep, after its opener. */
  function CommentBody(s: string, nested: bool, level: nat): (r: Scan)
    requires level > 0
    ensures r.len <= |s|
    decreases |s|
  {
    if s == [] then
      Scan(0, false)
    else if nested && OpensComment(s) then
      Further(2, CommentBody(s[2..], nested, level + 1))
    else if ClosesComment(s) then
      if level == 1 then Scan(2, true) else Further(2, CommentBody(s[2..], nested, level - 1))
    else
      Further(1, CommentBody(s[1..], nested, level))
  }

  lemma CommentStep(s: string, nested: bool, level: nat)
    requires level > 0
    ensures s == [] ==> CommentBody(s, nested, level) == Scan(0, false)
    ensures OpensComment(s) || ClosesComment(s) ==> |s| > 1
    ensures s != [] && nested && OpensComment(s) ==>
              CommentBody(s, nested, level) == Further(2, CommentBody(s[2..], nested, level + 1))
    ensures s != [] && !(nested && OpensComment(s)) && ClosesComment(s) ==>
              CommentBody(s, nested, level)
              == if level == 1 then Scan(2, true) else Further(2, CommentBody(s[2..], nested, level - 1))
    ensures s != [] && !(nested && OpensComment(s)) && !ClosesComment(s) ==>
              CommentBody(s, nested, level) == Further(1, CommentBody(s[1..], nested, level))
  {
  }

  method ScanBlockComment(src: string, pos: nat, y: Syntax) returns (end: nat, terminated: bool)
    requires pos + 2 <= |src|
    ensures pos + 2 <= end <= |src|
    ensures Scan(end - pos - 2, terminated) == CommentBody(src[pos + 2..], y.nestedBlockComments, 1)
  {
    hide CommentBody, OpensComment, ClosesComment;
    var i, level := pos + 2, 1;
    var nested := y.nestedBlockComments;
    while i < |src|
      invariant pos + 2 <= i <= |src| && 0 < level
      invariant CommentBody(src[pos + 2..], nested, 1) == Further(i - pos - 2, CommentBody(src[i..], nested, level))
    {
      var here := src[i..];
      assert here[1..] == src[i + 1..] && (|here| > 1 ==> here[2..] == src[i + 2..]);
      CommentStep(here, nested, level);
      if y.nestedBlockComments && OpensComment(src[i..]) {
        level := level + 1;
        i := i + 2;
        continue;
      }
      if ClosesComment(src[i..]) {
        level := level - 1;
        i := i + 2;
        if level == 0 {
          return i, true;
        }
        continue;
      }
      i := i + 1;
    }
    CommentStep(src[i..], nested, level);
    return |src|, false;
  }

  /** A line comment runs to the newline, which stays outside it. */
  function LineComment(s: string): Scan {
    var n := Run(NotNewline, s);
    Scan(n, n < |s|)
  }

  /** Digits and dots, then an exponent only when a digit follows it. */
  function NumberLength(u: Unicode, s: string): (n: nat)
    ensures n <= |s|
  {
    var a := Run(NumberChars(u), s);
    if a < |s| && IsExponent(s[a]) then
      var sign := if a + 1 < |s| && IsSign(s[a + 1]) then 1 else 0;
      var j := a + 1 + sign;
      if j < |s| && u.digit(s[j]) then j + Run(u.digit, s[j..]) else a
    else
      a
  }

  method ScanNumber(u: Unicode, src: string, pos: nat) returns (end: nat)
    requires pos < |src|
    ensures end == pos + NumberLength(u, src[pos..])
  {
    hide Run;
    var i := pos;
    while i < |src| && (u.digit(src[i]) || src[i] == '.')
      invariant pos <= i <= |src|
      invariant forall k | pos <= k < i :: NumberChars(u)(src[k])
    {
      i := i + 1;
    }
    RunIs(NumberChars(u), src[pos..], i - pos);
    if i < |src| && IsExponent(src[i]) {
      var j := i + 1;
      if j < |src| && IsSign(src[j]) {
        j := j + 1;
      }
      if j < |src| && u.digit(src[j]) {
        assert src[pos..][j - pos..] == src[j..];
        i := ScanBody(u, src, j, Digits);
      }
    }
    return i;
  }

  /** How long the `$tag$` standing here is, or None when none does. */
  function DollarTag(u: Unicode, s: string): (r: Option<nat>)
    requires s != []
    ensures r.Some? ==> 2 <= r.value <= |s|
  {
    var close := Find(s[1..], "$");
    if close.None? then
      None
    else
      var tag := s[..close.value + 2];
      if forall i | 1 <= i < |tag| - 1 :: IsIdentChar(u, tag[i]) then Some(|tag|) else None
  }

  /** The literal whose opening tag is the first `n` characters of `s`. */
  function DollarBody(s: string, n: nat): (r: Scan)
    requires n <= |s|
    ensures n <= r.len <= |s|
  {
    var end := Find(s[n..], s[..n]);
    if end.None? then Scan(|s|, false) else Scan(n + end.value + n, true)
  }

  /** A `$tag$ ... $tag$` literal, or None when what stands here does not open one. */
  function DollarQuote(u: Unicode, s: string): (r: Option<Scan>)
    requires s != []
    ensures r.Some? ==> 2 <= r.value.len <= |s|
  {
    var tag := DollarTag(u, s);
    if tag.None? then None else Some(DollarBody(s, tag.value))
  }

  predicate OpensEscapeString(u: Unicode, y: Syntax, s: string)
    requires s != []
  {
    y.escapeStringPrefix != "" && u.upper([s[0]]) == y.escapeStringPrefix && "'" <= s[1..]
  }

  /** The end of a `name` or `digits` run, zero when there is none. */
  function BodyLength(u: Unicode, s: string, body: Body): (n: nat)
    ensures n <= |s|
  {
    if body == Digits then
      Run(u.digit, s)
    else if s == [] || !IsIdentStart(u, s[0]) then
      0
    else
      1 + Run(IdentChars(u), s[1..])
  }

  method ScanBody(u: Unicode, src: string, pos: nat, body: Body) returns (end: nat)
    requires pos <= |src|
    ensures end == pos + BodyLength(u, src[pos..], body)
  {
    var i := pos;
    if body == Digits {
      while i < |src| && u.digit(src[i])
        invariant pos <= i <= |src|
        invariant forall k | pos <= k < i :: u.digit(src[k])
      {
        i := i + 1;
      }
      RunIs(u.digit, src[pos..], i - pos);
      return i;
    }
    if pos >= |src| || !IsIdentStart(u, src[pos]) {
      return pos;
    }
    i := pos + 1;
    while i < |src| && IsIdentChar(u, src[i])
      invariant pos < i <= |src|
      invariant forall k | pos < k < i :: IsIdentChar(u, src[k])
    {
      i := i + 1;
    }
    assert src[pos..][1..] == src[pos + 1..];
    RunIs(IdentChars(u), src[pos + 1..], i - pos - 1);
    return i;
  }

  // ------------------------------------------------- longest spelling first

  /** `sorted(xs, key=size, reverse=True)`: equals keep their order. */
  function LargestFirst<T(!new)>(size: T -> nat, xs: seq<T>): (r: seq<T>)
    ensures forall y :: y in r <==> y in xs
  {
    Sorting.Sort((a, b) => size(a) >= size(b), xs)
  }

  function Size(s: string): nat {
    |s|
  }

  function OpenerSize(p: Placeholder): nat {
    |p.opens|
  }

  function OperatorCandidates(y: Syntax): seq<string> {
    (if y.castOperator != "" then [y.castOperator] else []) + MULTI_CHAR_OPERATORS
  }

  /** The first of `ops` that `s` starts with. */
  function FirstMatch(ops: seq<string>, s: string): (r: Option<string>)
    ensures r.Some? ==> r.value in ops && r.value <= s
    ensures r.None? ==> forall i | 0 <= i < |ops| :: !(ops[i] <= s)
  {
    if ops == [] then None
    else if ops[0] <= s then Some(ops[0])
    else
      var r := FirstMatch(ops[1..], s);
      assert forall i | 1 <= i < |ops| :: ops[i] == ops[1..][i - 1];
      r
  }

  function MatchedOperator(y: Syntax, s: string): (r: Option<string>)
    requires s != []
    ensures r.Some? ==> r.value <= s && r.value != ""
  {
    var longest := FirstMatch(LargestFirst(Size, OperatorCandidates(y)), s);
    if longest.Some? then
      longest
    else if IsOperatorChar(s[0]) then
      Some([s[0]])
    else
      None
  }

  method MatchOperator(src: string, pos: nat, y: Syntax) returns (r: Option<string>)
    requires pos < |src|
    ensures r == MatchedOperator(y, src[pos..])
  {
    var ops := LargestFirst(Size, OperatorCandidates(y));
    for i := 0 to |ops|
      invariant FirstMatch(ops, src[pos..]) == FirstMatch(ops[i..], src[pos..])
    {
      assert ops[i..][1..] == ops[i + 1..];
      if ops[i] <= src[pos..] {
        return Some(ops[i]);
      }
    }
    return if IsOperatorChar(src[pos]) then Some([src[pos]]) else None;
  }

  /** The declared placeholders that can begin one. */
  function Openers(ps: seq<Placeholder>): (r: seq<Placeholder>)
    ensures forall p | p in r :: p in ps && p.opens != ""
  {
    if ps == [] then []
    else (if ps[0].opens != "" then [ps[0]] else []) + Openers(ps[1..])
  }

  /** The bound parameter that `p` reads off the front of `s`, if it reads one. */
  function Reads(u: Unicode, p: Placeholder, s: string): (r: Option<Scan>)
    ensures r.Some? && p.opens != "" ==> 0 < r.value.len <= |s|
  {
    if !(p.opens <= s) then
      None
    else
      var rest := s[|p.opens|..];
      if p.closes != "" then
        var end := Find(rest, p.closes);
        Some(if end.None? then Scan(|s|, false) else Scan(|p.opens| + end.value + |p.closes|, true))
      else if p.body == Nothing then
        Some(Scan(|p.opens|, true))
      else if p.body == Any then
        None
      else
        var n := BodyLength(u, rest, p.body);
        if n > 0 then Some(Scan(|p.opens| + n, false)) else None
  }

  /** What the first of `ps` to read anything reads. */
  function FirstPlaceholder(u: Unicode, ps: seq<Placeholder>, s: string): (r: Option<Scan>)
    requires forall p | p in ps :: p.opens != ""
    ensures r.Some? ==> 0 < r.value.len <= |s|
  {
    if ps == [] then
      None
    else
      var first := Reads(u, ps[0], s);
      if first.Some? then first else FirstPlaceholder(u, ps[1..], s)
  }

  /** The placeholders in the order they are tried. */
  function Tried(y: Syntax): (r: seq<Placeholder>)
    ensures forall p | p in r :: p in y.placeholders && p.opens != ""
  {
    LargestFirst(OpenerSize, Openers(y.placeholders))
  }

  method ScanPlaceholder(u: Unicode, src: string, pos: nat, y: Syntax) returns (r: Option<Scan>)
    requires pos < |src|
    ensures r == FirstPlaceholder(u, Tried(y), src[pos..])
  {
    var tried := Tried(y);
    for i := 0 to |tried|
      invariant FirstPlaceholder(u, tried, src[pos..]) == FirstPlaceholder(u, tried[i..], src[pos..])
    {
      assert tried[i..][1..] == tried[i + 1..];
      r := ReadPlaceholder(u, src, pos, tried[i]);
      if r.Some? {
        return;
      }
    }
    return None;
  }

  /** One turn of the loop above. */
  method ReadPlaceholder(u: Unicode, src: string, pos: nat, p: Placeholder) returns (r: Option<Scan>)
    requires pos < |src|
    ensures r == Reads(u, p, src[pos..])
  {
    if !(p.opens <= src[pos..]) {
      return None;
    }
    var start := pos + |p.opens|;
    assert src[pos..][|p.opens|..] == src[start..];
    if p.closes != "" {
      var end := Find(src[start..], p.closes);
      return Some(if end.None? then Scan(|src| - pos, false) else Scan(start + end.value + |p.closes| - pos, true));
    }
    if p.body == Nothing {
      return Some(Scan(start - pos, true));
    }
    if p.body == Any {
      return None;
    }
    var end := ScanBody(u, src, start, p.body);
    return if end > start then Some(Scan(end - pos, false)) else None;
  }

  // -------------------------------------------------------------- the scan

  function Folded(u: Unicode, y: Syntax, raw: string): string {
    match y.unquotedCase
    case Lower => u.lower(raw)
    case Upper => u.upper(raw)
    case Preserve => raw
  }

  predicate StartsLineComment(y: Syntax, s: string) {
    exists i | 0 <= i < |y.lineComments| :: y.lineComments[i] <= s
  }

  /** A lexeme whose value is the text it covers. */
  function Plain(kind: Kind, s: string, scan: Scan): Lexeme
    requires scan.len <= |s|
  {
    Lexeme(kind, scan.len, s[..scan.len], false, scan.terminated)
  }

  /** The string literal standing at the front of `s`, with or without an escape prefix. */
  function StringLexeme(y: Syntax, s: string): (r: Scan)
    requires s != [] && (s[0] == '\'' || "'" <= s[1..])
    ensures 0 < r.len <= |s|
  {
    if s[0] == '\'' then Further(1, StringBody(s[1..], y.stringEscapeBackslash))
    else Further(2, StringBody(s[2..], true))
  }

  /** What one turn of the main loop reads. */
  function Next(u: Unicode, y: Syntax, s: string): (x: Lexeme)
    requires Sound(u) && s != []
    ensures 0 < x.len <= |s|
  {
    var c := s[0];
    if u.space(c) then
      Plain(Whitespace, s, Scan(Run(u.space, s), true))
    else if StartsLineComment(y, s) then
      Plain(Comment, s, LineComment(s))
    else if OpensComment(s) then
      Plain(Comment, s, Further(2, CommentBody(s[2..], y.nestedBlockComments, 1)))
    else if c == '\'' || OpensEscapeString(u, y, s) then
      Plain(Str, s, StringLexeme(y, s))
    else
      var param := FirstPlaceholder(u, Tried(y), s);
      if param.Some? then
        Plain(Param, s, param.value)
      else
        var dollar := if c == '$' && y.dollarQuoting then DollarQuote(u, s) else None;
        if dollar.Some? then
          Plain(Str, s, dollar.value)
        else
          NextWord(u, y, s)
  }

  /** The branches of the main loop below every delimited literal. */
  function NextWord(u: Unicode, y: Syntax, s: string): (x: Lexeme)
    requires Sound(u) && s != []
    ensures 0 < x.len <= |s|
  {
    var c := s[0];
    if c in y.identifierQuotes then
      var name := QuotedBody(s[1..], c);
      Lexeme(Ident, 1 + name.len, name.value, true, name.terminated)
    else if IsIdentStart(u, c) then
      var n := Run(IdentChars(u), s);
      Lexeme(Ident, n, Folded(u, y, s[..n]), false, true)
    else if u.digit(c) then
      Plain(Number, s, Scan(NumberLength(u, s), true))
    else if IsPunctuation(c) then
      Plain(Punct, s, Scan(1, true))
    else
      var op := MatchedOperator(y, s);
      if op.Some? then Plain(Operator, s, Scan(|op.value|, true)) else Plain(Unknown, s, Scan(1, true))
  }

  function Placed(x: Lexeme, s: string, pos: nat, depth: nat): Token
    requires x.len <= |s|
  {
    Token(x.kind, pos, pos + x.len, s[..x.len], x.value, x.quoted, x.terminated, depth)
  }

  predicate IsPunct(t: Token, text: string) {
    t.kind == Punct && t.text == text
  }

  function Outer(depth: nat): nat {
    if depth == 0 then 0 else depth - 1
  }

  /** The depth a lexeme carries: a closing paren already the outer one. */
  function DepthOf(x: Lexeme, depth: nat): nat {
    if x.kind == Punct && x.value == ")" then Outer(depth) else depth
  }

  /** The depth the text after a lexeme stands at, never below zero. */
  function DepthAfter(x: Lexeme, depth: nat): nat {
    if x.kind == Punct && x.value == "(" then depth + 1
    else if x.kind == Punct && x.value == ")" then Outer(depth)
    else depth
  }

  /** The tokens of `s`, which stands at offset `pos` and paren depth `depth`. */
  function LexFrom(u: Unicode, y: Syntax, s: string, pos: nat, depth: nat): seq<Token>
    requires Sound(u)
    decreases |s|
  {
    if s == [] then
      []
    else
      var x := Next(u, y, s);
      [Placed(x, s, pos, DepthOf(x, depth))] + LexFrom(u, y, s[x.len..], pos + x.len, DepthAfter(x, depth))
  }

  function Lexed(u: Unicode, y: Syntax, src: string): seq<Token>
    requires Sound(u)
  {
    LexFrom(u, y, src, 0, 0)
  }

  /** One turn of the main loop: the lexeme at `pos`, its delimited forms first. */
  method ReadLexeme(u: Unicode, y: Syntax, src: string, pos: nat) returns (x: Lexeme)
    requires Sound(u) && pos < |src|
    ensures x == Next(u, y, src[pos..])
  {
    var here := src[pos..];
    var ch := src[pos];
    assert here[1..] == src[pos + 1..];
    if u.space(ch) {
      var end := pos;
      while end < |src| && u.space(src[end])
        invariant pos <= end <= |src|
        invariant forall k | pos <= k < end :: u.space(src[k])
      {
        end := end + 1;
      }
      RunIs(u.space, here, end - pos);
      return Plain(Whitespace, here, Scan(end - pos, true));
    }
    if StartsLineComment(y, here) {
      return Plain(Comment, here, LineComment(here));
    }
    if OpensComment(here) {
      assert here[2..] == src[pos + 2..];
      var end, terminated := ScanBlockComment(src, pos, y);
      return Plain(Comment, here, Scan(end - pos, terminated));
    }
    if ch == '\'' || OpensEscapeString(u, y, here) {
      var escaped := ch != '\'';
      var start := pos + if escaped then 1 else 0;
      if escaped { assert here[2..] == src[start + 1..]; }
      var end, terminated := ScanString(src, start, y, escaped);
      return Plain(Str, here, Scan(end - pos, terminated));
    }
    var param := ScanPlaceholder(u, src, pos, y);
    if param.Some? {
      return Plain(Param, here, param.value);
    }
    if ch == '$' && y.dollarQuoting {
      var dollar := DollarQuote(u, here);
      if dollar.Some? {
        return Plain(Str, here, dollar.value);
      }
    }
    x := ReadWord(u, y, src, pos);
  }

  method ReadWord(u: Unicode, y: Syntax, src: string, pos: nat) returns (x: Lexeme)
    requires Sound(u) && pos < |src|
    ensures x == NextWord(u, y, src[pos..])
  {
    var here := src[pos..];
    var ch := src[pos];
    assert here[1..] == src[pos + 1..];
    if ch in y.identifierQuotes {
      var end, value, terminated := ScanQuotedIdent(src, pos, ch);
      return Lexeme(Ident, end - pos, value, true, terminated);
    }
    if IsIdentStart(u, ch) {
      var end := pos;
      while end < |src| && IsIdentChar(u, src[end])
        invariant pos <= end <= |src|
        invariant forall k | pos <= k < end :: IsIdentChar(u, src[k])
      {
        end := end + 1;
      }
      RunIs(IdentChars(u), here, end - pos);
      return Lexeme(Ident, end - pos, Folded(u, y, here[..end - pos]), false, true);
    }
    if u.digit(ch) {
      var end := ScanNumber(u, src, pos);
      return Plain(Number, here, Scan(end - pos, true));
    }
    if IsPunctuation(ch) {
      return Plain(Punct, here, Scan(1, true));
    }
    var op := MatchOperator(src, pos, y);
    return if op.Some? then Plain(Operator, here, Scan(|op.value|, true)) else Plain(Unknown, here, Scan(1, true));
  }

  lemma EmptyLexes(u: Unicode, y: Syntax, pos: nat, depth: nat)
    requires Sound(u)
    ensures LexFrom(u, y, "", pos, depth) == []
  {
  }

  /** One turn of the main loop, as `LexFrom` sees it. */
  lemma LexStep(u: Unicode, y: Syntax, s: string, pos: nat, depth: nat)
    requires Sound(u) && s != []
    ensures var x := Next(u, y, s);
            LexFrom(u, y, s, pos, depth)
            == [Placed(x, s, pos, DepthOf(x, depth))] + LexFrom(u, y, s[x.len..], pos + x.len, DepthAfter(x, depth))
  {
    hide Next, Sound;
  }

  /** Tokenize `src`. Total: it returns on every input. */
  method Lex(u: Unicode, y: Syntax, src: string) returns (tokens: seq<Token>)
    requires Sound(u)
    ensures tokens == Lexed(u, y, src)
  {
    hide Next, Sound, LexFrom;
    tokens := [];
    var pos: nat, depth: nat := 0, 0;
    assert src[0..] == src;
    while pos < |src|
      invariant pos <= |src|
      invariant tokens + LexFrom(u, y, src[pos..], pos, depth) == Lexed(u, y, src)
    {
      var x := ReadLexeme(u, y, src, pos);
      LexStep(u, y, src[pos..], pos, depth);
      assert src[pos..][x.len..] == src[pos + x.len..];
      if x.kind == Punct && x.value == ")" {
        depth := if depth == 0 then 0 else depth - 1;
      }
      tokens := tokens + [Placed(x, src[pos..], pos, depth)];
      pos := pos + x.len;
      if x.kind == Punct && x.value == "(" {
        depth := depth + 1;
      }
    }
    assert src[pos..] == "";
    EmptyLexes(u, y, pos, depth);
  }
}
