/**
 Cutting a document of several statements, in the editor (lsp documents.py) and in
 the engine (analyse.py), and why the piece lexes as it did in place.
 */
module Documents {
  import opened Text
  import opened Lexer
  import Scanning

  predicate IsSemicolon(t: Token) {
    IsPunct(t, ";")
  }

  /** No statement boundary stands in `[lo, hi)`. */
  ghost predicate OneStatement(tokens: seq<Token>, lo: nat, hi: nat) {
    lo <= hi <= |tokens| && forall i | lo <= i < hi :: !IsSemicolon(tokens[i])
  }

  /** The statement around `caret`: cut after the last semicolon before it and at the first one not before it. */
  ghost predicate IsStatementAt(tokens: seq<Token>, caret: nat, lo: nat, hi: nat) {
    && OneStatement(tokens, lo, hi)
    && (lo > 0 ==> IsSemicolon(tokens[lo - 1]) && tokens[lo - 1].start < caret)
    && (hi < |tokens| ==> IsSemicolon(tokens[hi]) && caret <= tokens[hi].start)
  }

  /** The statement that began at `lo`, with the tokens from `index` on still to be looked at. */
  function Cut(tokens: seq<Token>, caret: nat, lo: nat, index: nat): (r: (nat, nat))
    requires lo <= index <= |tokens|
    ensures lo <= r.0 <= r.1 <= |tokens|
    decreases |tokens| - index
  {
    if index == |tokens| then (lo, index)
    else if !IsSemicolon(tokens[index]) then Cut(tokens, caret, lo, index + 1)
    else if tokens[index].start >= caret then (lo, index)
    else Cut(tokens, caret, index + 1, index + 1)
  }

  function StatementOf(tokens: seq<Token>, caret: nat): (r: (nat, nat))
    ensures r.0 <= r.1 <= |tokens|
  {
    Cut(tokens, caret, 0, 0)
  }

  /** The index range of the statement holding `caret` (analyse.statement_at). */
  method StatementAt(tokens: seq<Token>, caret: nat) returns (lo: nat, hi: nat)
    ensures IsStatementAt(tokens, caret, lo, hi)
    ensures (lo, hi) == StatementOf(tokens, caret)
  {
    lo := 0;
    for index := 0 to |tokens|
      invariant lo <= index && OneStatement(tokens, lo, index)
      invariant lo > 0 ==> IsSemicolon(tokens[lo - 1]) && tokens[lo - 1].start < caret
      invariant Cut(tokens, caret, lo, index) == StatementOf(tokens, caret)
    {
      var token := tokens[index];
      if IsSemicolon(token) {
        if token.start >= caret {
          return lo, index;
        }
        lo := index + 1;
      }
    }
    hi := |tokens|;
  }

  /** Where the statement that begins with token `lo` starts in the text. */
  function StartOffset(tokens: seq<Token>, lo: nat): nat
    requires lo <= |tokens|
  {
    if lo == 0 then 0 else tokens[lo - 1].end
  }

  /** Where the statement that stops before token `hi` ends in the text. */
  function EndOffset(tokens: seq<Token>, hi: nat, text: string): nat
    requires hi <= |tokens|
  {
    if hi == |tokens| then |text| else tokens[hi].start
  }

  /** `piece`, which starts at `start`, is the text of the token range that holds `offset`. */
  ghost predicate IsPieceAt(tokens: seq<Token>, text: string, offset: nat, piece: string, start: nat) {
    exists lo: nat, hi: nat ::
      && IsStatementAt(tokens, offset, lo, hi)
      && start == StartOffset(tokens, lo) <= EndOffset(tokens, hi, text) <= |text|
      && piece == text[start..EndOffset(tokens, hi, text)]
  }

  /** The text of the statement holding `offset`, and where it starts (documents.statement_at). */
  method SplitAt(u: Unicode, y: Syntax, text: string, offset: nat) returns (piece: string, start: nat)
    requires Sound(u)
    ensures IsPieceAt(Lexed(u, y, text), text, offset, piece, start)
  {
    hide Lexed, Sound;
    var tokens := Lex(u, y, text);
    start := 0;
    ghost var lo: nat := 0;
    for index := 0 to |tokens|
      invariant lo <= index && OneStatement(tokens, lo, index)
      invariant lo > 0 ==> IsSemicolon(tokens[lo - 1]) && tokens[lo - 1].start < offset
      invariant start == StartOffset(tokens, lo) <= StartOffset(tokens, index) <= |text|
    {
      var token := tokens[index];
      TokensMeet(u, y, text, index);
      if !IsSemicolon(token) {
        continue;
      }
      if offset <= token.start {
        assert IsStatementAt(tokens, offset, lo, index);
        return text[start..token.start], start;
      }
      start, lo := token.end, index + 1;
    }
    assert IsStatementAt(tokens, offset, lo, |tokens|);
    return text[start..], start;
  }

  /** Each token starts where the one before it ended, inside the text. */
  lemma TokensMeet(u: Unicode, y: Syntax, text: string, index: nat)
    requires Sound(u) && index < |Lexed(u, y, text)|
    ensures var ts := Lexed(u, y, text);
            StartOffset(ts, index) == ts[index].start < ts[index].end == StartOffset(ts, index + 1) <= |text|
  {
    hide Lexed;
    Scanning.LexTiles(u, y, text);
    assert Scanning.Covers(Lexed(u, y, text)[index], text, 0);
  }

  lemma {:induction false} StartsIncrease(u: Unicode, y: Syntax, text: string, i: nat, j: nat)
    requires Sound(u) && i < j < |Lexed(u, y, text)|
    ensures Lexed(u, y, text)[i].start < Lexed(u, y, text)[j].start
    decreases j
  {
    hide Lexed;
    TokensMeet(u, y, text, j - 1);
    TokensMeet(u, y, text, j);
    if i < j - 1 {
      StartsIncrease(u, y, text, i, j - 1);
    }
  }

  lemma LexedRises(u: Unicode, y: Syntax, text: string)
    requires Sound(u)
    ensures Scanning.Rising(Lexed(u, y, text))
  {
    hide Lexed;
    var ts := Lexed(u, y, text);
    forall i, j | 0 <= i < j < |ts| ensures ts[i].start < ts[j].start {
      StartsIncrease(u, y, text, i, j);
    }
  }

  lemma {:induction false} CutIsStatement(tokens: seq<Token>, caret: nat, lo: nat, index: nat)
    requires lo <= index <= |tokens| && OneStatement(tokens, lo, index)
    requires lo > 0 ==> IsSemicolon(tokens[lo - 1]) && tokens[lo - 1].start < caret
    ensures IsStatementAt(tokens, caret, Cut(tokens, caret, lo, index).0, Cut(tokens, caret, lo, index).1)
    decreases |tokens| - index
  {
    hide IsSemicolon;
    if index < |tokens| {
      if !IsSemicolon(tokens[index]) {
        CutIsStatement(tokens, caret, lo, index + 1);
      } else if tokens[index].start < caret {
        CutIsStatement(tokens, caret, index + 1, index + 1);
      }
    }
  }

  /** Both splitters answer from one description, which leaves a single choice. */
  lemma SplittersAgree(u: Unicode, y: Syntax, text: string, caret: nat, lo: nat, hi: nat, lo': nat, hi': nat)
    requires Sound(u)
    requires IsStatementAt(Lexed(u, y, text), caret, lo, hi) && IsStatementAt(Lexed(u, y, text), caret, lo', hi')
    ensures lo == lo' && hi == hi'
  {
    hide Lexed;
    var ts := Lexed(u, y, text);
    LexedRises(u, y, text);
    BoundsInOrder(ts, caret, lo, hi, lo', hi');
    BoundsInOrder(ts, caret, lo', hi', lo, hi);
  }

  lemma BoundsInOrder(tokens: seq<Token>, caret: nat, lo: nat, hi: nat, lo': nat, hi': nat)
    requires Scanning.Rising(tokens)
    requires IsStatementAt(tokens, caret, lo, hi) && IsStatementAt(tokens, caret, lo', hi')
    ensures lo <= lo' && hi <= hi'
  {
    // A boundary of one range inside the other would be a semicolon no statement holds.
    assert lo > lo' ==> hi' <= lo - 1;
    assert hi > hi' ==> hi' < lo;
  }

  // ------------------------------------------------------- relexing is local

  /** `a` is `b` read from text standing `by` later, whatever parens lie around it. */
  predicate Moved(a: Token, b: Token, shift: nat) {
    && a.kind == b.kind && a.start + shift == b.start && a.end + shift == b.end
    && a.text == b.text && a.value == b.value && a.quoted == b.quoted && a.terminated == b.terminated
  }

  ghost predicate AllMoved(a: seq<Token>, b: seq<Token>, shift: nat) {
    |a| == |b| && forall i | 0 <= i < |a| :: Moved(a[i], b[i], shift)
  }

  lemma {:induction false} PlaceIsIrrelevant(u: Unicode, y: Syntax, s: string, pos: nat, depth: nat, shift: nat,
                    depth': nat)
    requires Sound(u)
    ensures AllMoved(LexFrom(u, y, s, pos, depth), LexFrom(u, y, s, pos + shift, depth'), shift)
    decreases |s|
  {
    hide Next, Sound, LexFrom;
    if s == [] {
      EmptyLexes(u, y, pos, depth);
      EmptyLexes(u, y, pos + shift, depth');
    } else {
      var x := Next(u, y, s);
      LexStep(u, y, s, pos, depth);
      LexStep(u, y, s, pos + shift, depth');
      PlaceIsIrrelevant(u, y, s[x.len..], pos + x.len, DepthAfter(x, depth), shift, DepthAfter(x, depth'));
      assert pos + shift + x.len == pos + x.len + shift;
    }
  }

  /** The tokens from index `lo` on are the lex of the text from there on. */
  lemma {:induction false} SuffixLexes(u: Unicode, y: Syntax, s: string, lo: nat) returns (depth: nat)
    requires Sound(u) && lo <= |Lexed(u, y, s)|
    ensures var ts := Lexed(u, y, s);
            var at := StartOffset(ts, lo);
            at <= |s| && ts[lo..] == LexFrom(u, y, s[at..], at, depth)
  {
    hide Next, Sound, LexFrom;
    var ts := Lexed(u, y, s);
    if lo == 0 {
      assert s[0..] == s && ts[0..] == ts;
      depth := 0;
    } else {
      var before := SuffixLexes(u, y, s, lo - 1);
      depth := SuffixStep(u, y, s, ts, lo - 1, StartOffset(ts, lo - 1), before);
    }
  }

  lemma SuffixStep(u: Unicode, y: Syntax, s: string, ts: seq<Token>, i: nat, at: nat, depth: nat) returns (depth': nat)
    requires Sound(u) && i < |ts| && at <= |s| && ts[i..] == LexFrom(u, y, s[at..], at, depth)
    ensures at < ts[i].end <= |s| && ts[i + 1..] == LexFrom(u, y, s[ts[i].end..], ts[i].end, depth')
  {
    hide Next, Sound, LexFrom;
    var here := s[at..];
    assert ts[i] == ts[i..][0] && ts[i + 1..] == ts[i..][1..];
    if here == [] {
      EmptyLexes(u, y, at, depth);
    }
    LexStep(u, y, here, at, depth);
    var x := Next(u, y, here);
    assert here[x.len..] == s[at + x.len..];
    depth' := DepthAfter(x, depth);
  }

  /** The tokens before a semicolon are the lex of the text before it. */
  lemma {:induction false} PrefixLexes(u: Unicode, y: Syntax, s: string, pos: nat, depth: nat, hi: nat)
    requires Sound(u) && Scanning.Splittable(y)
    requires hi < |LexFrom(u, y, s, pos, depth)| && IsSemicolon(LexFrom(u, y, s, pos, depth)[hi])
    ensures var ts := LexFrom(u, y, s, pos, depth);
            && pos <= ts[hi].start < pos + |s|
            && ts[..hi] == LexFrom(u, y, s[..ts[hi].start - pos], pos, depth)
    decreases |s|
  {
    hide Next, Sound, LexFrom, Scanning.Splittable;
    SemicolonPlaced(u, y, s, pos, depth, hi);
    if hi == 0 {
      EmptyLexes(u, y, pos, depth);
    } else {
      var ts := LexFrom(u, y, s, pos, depth);
      var x := Next(u, y, s);
      var rest := s[x.len..];
      var k := ts[hi].start - pos;
      LexStep(u, y, s, pos, depth);
      PrefixLexes(u, y, rest, pos + x.len, DepthAfter(x, depth), hi - 1);
      Scanning.NextLocal(u, y, s, k);
      PrefixStep(u, y, s, pos, depth, k);
      assert ts[..hi] == [ts[0]] + ts[1..][..hi - 1];
    }
  }

  lemma SemicolonPlaced(u: Unicode, y: Syntax, s: string, pos: nat, depth: nat, hi: nat)
    requires Sound(u)
    requires hi < |LexFrom(u, y, s, pos, depth)| && IsSemicolon(LexFrom(u, y, s, pos, depth)[hi])
    ensures s != []
    ensures var t := LexFrom(u, y, s, pos, depth)[hi];
            pos <= t.start < pos + |s| && s[t.start - pos] == ';' && (hi == 0 ==> t.start == pos)
    ensures hi > 0 ==> pos + Next(u, y, s).len <= LexFrom(u, y, s, pos, depth)[hi].start
  {
    hide Next, Sound, LexFrom, Scanning.Covers, IsSemicolon;
    Scanning.TokenCovers(u, y, s, pos, depth, hi);
    SemicolonCovers(LexFrom(u, y, s, pos, depth)[hi], s, pos);
    if hi > 0 {
      var x := Next(u, y, s);
      var rest := LexFrom(u, y, s[x.len..], pos + x.len, DepthAfter(x, depth));
      LexStep(u, y, s, pos, depth);
      assert LexFrom(u, y, s, pos, depth)[hi] == rest[hi - 1];
      Scanning.TokenCovers(u, y, s[x.len..], pos + x.len, DepthAfter(x, depth), hi - 1);
      SemicolonCovers(rest[hi - 1], s[x.len..], pos + x.len);
    }
  }

  lemma SemicolonCovers(t: Token, s: string, pos: nat)
    requires Scanning.Covers(t, s, pos) && IsSemicolon(t)
    ensures s != [] && pos <= t.start < pos + |s| && s[t.start - pos] == ';'
  {
    assert s[t.start - pos] == t.text[0];
  }

  lemma PrefixStep(u: Unicode, y: Syntax, s: string, pos: nat, depth: nat, k: nat)
    requires Sound(u) && s != [] && Next(u, y, s).len <= k <= |s|
    requires 0 < k && Next(u, y, s[..k]) == Next(u, y, s)
    ensures var x := Next(u, y, s);
            LexFrom(u, y, s[..k], pos, depth)
            == [LexFrom(u, y, s, pos, depth)[0]]
             + LexFrom(u, y, s[x.len..][..k - x.len], pos + x.len, DepthAfter(x, depth))
  {
    hide Next, Sound, LexFrom;
    var x := Next(u, y, s);
    LexStep(u, y, s, pos, depth);
    LexStep(u, y, s[..k], pos, depth);
    assert s[..k][x.len..] == s[x.len..][..k - x.len];
    assert s[..k][..x.len] == s[..x.len];
  }

  /**
   Lexing the piece the editor cuts gives exactly the tokens the whole text has between
   the same semicolons, moved by where the piece starts; only paren depth may differ.
   */
  lemma RelexingIsLocal(u: Unicode, y: Syntax, text: string, lo: nat, hi: nat)
    requires Sound(u) && Scanning.Splittable(y)
    requires var ts := Lexed(u, y, text);
             && OneStatement(ts, lo, hi)
             && (lo > 0 ==> IsSemicolon(ts[lo - 1])) && (hi < |ts| ==> IsSemicolon(ts[hi]))
    ensures var ts := Lexed(u, y, text);
            var start, end := StartOffset(ts, lo), EndOffset(ts, hi, text);
            && start <= end <= |text|
            && AllMoved(Lexed(u, y, text[start..end]), ts[lo..hi], start)
  {
    hide Next, Sound, LexFrom, Scanning.Splittable, AllMoved;
    var ts := Lexed(u, y, text);
    var start, end := StartOffset(ts, lo), EndOffset(ts, hi, text);
    var depth := SuffixLexes(u, y, text, lo);
    var rest := text[start..];
    var tail := LexFrom(u, y, rest, start, depth);
    if hi < |ts| {
      assert tail[hi - lo] == ts[hi];
      PrefixLexes(u, y, rest, start, depth, hi - lo);
      assert ts[lo..][..hi - lo] == ts[lo..hi];
      assert rest[..end - start] == text[start..end];
    } else {
      assert rest == text[start..end];
      assert ts[lo..] == ts[lo..hi];
    }
    PlaceIsIrrelevant(u, y, text[start..end], 0, 0, start, depth);
  }

  /** The piece the editor cuts at an offset lexes to the tokens of the engine's range there, moved by its start. */
  lemma PieceIsTheStatement(u: Unicode, y: Syntax, text: string, offset: nat, piece: string, start: nat)
    requires Sound(u) && Scanning.Splittable(y) && IsPieceAt(Lexed(u, y, text), text, offset, piece, start)
    ensures var ts := Lexed(u, y, text);
            var (lo, hi) := StatementOf(ts, offset);
            AllMoved(Lexed(u, y, piece), ts[lo..hi], start)
  {
    hide Sound, Lexed, Scanning.Splittable, AllMoved, IsSemicolon;
    var ts := Lexed(u, y, text);
    var lo: nat, hi: nat :| IsStatementAt(ts, offset, lo, hi)
      && start == StartOffset(ts, lo) <= EndOffset(ts, hi, text) <= |text|
      && piece == text[start..EndOffset(ts, hi, text)];
    CutIsStatement(ts, offset, 0, 0);
    SplittersAgree(u, y, text, offset, lo, hi, StatementOf(ts, offset).0, StatementOf(ts, offset).1);
    RelexingIsLocal(u, y, text, lo, hi);
  }
}
