/**
 Offsets and protocol positions (lsp documents.py): where lines start, and the line and character
 an offset is told as, in whichever encoding the client counts by.
 */
module Positions {
  import opened Utf8Bytes
  import opened Wrappers

  /** A Python string: any code points, lone surrogates included. */
  type Document = seq<CodePoint>

  const LF: CodePoint := 0x0A
  const CR: CodePoint := 0x0D

  /** The position encodings of the LSP 3.17 specification. */
  datatype Encoding = Utf8 | Utf16 | Utf32

  /** The code units of one code point: UTF-16 as section 2.1 of RFC 2781 has it, a lone surrogate let through. */
  function UnitsOf(e: Encoding, c: CodePoint): (us: seq<nat>)
    ensures us != []
  {
    match e
    case Utf32 => [c]
    case Utf16 =>
      if c < 0x10000 then [c] else [0xD800 + (c - 0x10000) / 0x400, 0xDC00 + (c - 0x10000) % 0x400]
    case Utf8 => EncodePoint(c)
  }

  function Encoded(e: Encoding, text: Document): seq<nat> {
    if text == [] then [] else UnitsOf(e, text[0]) + Encoded(e, text[1..])
  }

  /** `UNIT_COUNTERS`. */
  function Units(e: Encoding, text: Document): nat {
    |Encoded(e, text)|
  }

  lemma {:induction false} EncodedAppends(e: Encoding, a: Document, b: Document)
    ensures Encoded(e, a + b) == Encoded(e, a) + Encoded(e, b)
  {
    hide UnitsOf;
    if a == [] {
      assert a + b == b;
    } else {
      EncodedAppends(e, a[1..], b);
      assert (a + b)[1..] == a[1..] + b && (a + b)[0] == a[0];
      Associates(UnitsOf(e, a[0]), Encoded(e, a[1..]), Encoded(e, b));
    }
  }

  // ------------------------------------------------------------------------ lines

  /** Just past an LF, a CRLF or a CR that no LF follows; and the start of the text. */
  predicate IsLineStart(text: Document, i: nat) {
    i == 0 || (i <= |text| && (text[i - 1] == LF || (text[i - 1] == CR && (i == |text| || text[i] != LF))))
  }

  ghost predicate AreLineStarts(text: Document, starts: seq<nat>) {
    && starts != [] && starts[0] == 0
    && (forall j, k | 0 <= j < k < |starts| :: starts[j] < starts[k])
    && (forall k | 0 <= k < |starts| :: IsLineStart(text, starts[k]) && starts[k] <= |text|)
    && (forall i: nat | i <= |text| && IsLineStart(text, i) :: i in starts)
  }

  /** `line_starts`: each terminator opens one line, and a CRLF is one terminator. */
  method LineStarts(text: Document) returns (starts: seq<nat>)
    ensures AreLineStarts(text, starts)
  {
    starts := [0];
    var index := 0;
    while index < |text|
      invariant index <= |text| && starts != [] && starts[0] == 0
      invariant 0 < index ==> !(text[index - 1] == CR && index < |text| && text[index] == LF)
      invariant forall j, k | 0 <= j < k < |starts| :: starts[j] < starts[k]
      invariant forall k | 0 <= k < |starts| :: IsLineStart(text, starts[k]) && starts[k] <= index
      invariant forall i: nat | i <= index && IsLineStart(text, i) :: i in starts
    {
      var character := text[index];
      if character == LF {
        starts := starts + [index + 1];
      } else if character == CR {
        index := index + if index + 1 < |text| && text[index + 1] == LF then 1 else 0;
        starts := starts + [index + 1];
      }
      index := index + 1;
    }
  }

  // -------------------------------------------------------------------- positions

  /** `bisect_right`: how many of the ascending `xs` are at most `x`. */
  function BisectRight(xs: seq<nat>, x: nat, lo: nat, hi: nat): (n: nat)
    requires lo <= hi <= |xs| && forall j, k | 0 <= j < k < |xs| :: xs[j] < xs[k]
    requires (forall k | 0 <= k < lo :: xs[k] <= x) && (forall k | hi <= k < |xs| :: x < xs[k])
    ensures lo <= n <= hi && (forall k | 0 <= k < n :: xs[k] <= x) && (forall k | n <= k < |xs| :: x < xs[k])
    decreases hi - lo
  {
    if lo == hi then lo
    else
      var mid := (lo + hi) / 2;
      if x < xs[mid] then BisectRight(xs, x, lo, mid) else BisectRight(xs, x, mid + 1, hi)
  }

  datatype Position = Position(line: nat, character: nat)

  predicate Before(p: Position, q: Position) {
    p.line < q.line || (p.line == q.line && p.character < q.character)
  }

  /** `to_position`. */
  function ToPosition(text: Document, starts: seq<nat>, e: Encoding, offset: nat): (p: Position)
    requires AreLineStarts(text, starts) && offset <= |text|
    ensures p.line < |starts| && starts[p.line] <= offset && (p.line + 1 < |starts| ==> offset < starts[p.line + 1])
    ensures p.character == Units(e, text[starts[p.line]..offset])
  {
    var line := BisectRight(starts, offset, 0, |starts|) - 1;
    Position(line, Units(e, text[starts[line]..offset]))
  }

  /** Counting units from `from` on, the offset at which `units` of them have gone by. */
  function Advance(e: Encoding, text: Document, from: nat, units: nat): (offset: nat)
    decreases |text| - from
  {
    if units == 0 || from >= |text| then from
    else
      var width := |UnitsOf(e, text[from])|;
      if units < width then from else Advance(e, text, from + 1, units - width)
  }

  /** How a client reads a position: the line's start, and then so many units on. */
  function FromPosition(text: Document, starts: seq<nat>, e: Encoding, p: Position): nat
    requires p.line < |starts|
  {
    Advance(e, text, starts[p.line], p.character)
  }

  lemma {:induction false} AdvanceCounts(e: Encoding, text: Document, from: nat, to: nat)
    requires from <= to <= |text|
    ensures Advance(e, text, from, Units(e, text[from..to])) == to
    decreases |text| - from
  {
    if from < to {
      AdvanceCounts(e, text, from + 1, to);
      assert text[from..to][1..] == text[from + 1..to];
    }
  }

  /** A position leads back to the very offset it was made from. */
  lemma PositionsLeadBack(text: Document, starts: seq<nat>, e: Encoding, offset: nat)
    requires AreLineStarts(text, starts) && offset <= |text|
    ensures FromPosition(text, starts, e, ToPosition(text, starts, e, offset)) == offset
  {
    AdvanceCounts(e, text, starts[ToPosition(text, starts, e, offset).line], offset);
  }

  /** Later offsets have later positions, line first. */
  lemma PositionsAscend(text: Document, starts: seq<nat>, e: Encoding, a: nat, b: nat)
    requires AreLineStarts(text, starts) && a <= |text| && b <= |text|
    ensures a < b <==> Before(ToPosition(text, starts, e, a), ToPosition(text, starts, e, b))
  {
    if a < b {
      LaterIsAfter(text, starts, e, a, b);
    } else if b < a {
      LaterIsAfter(text, starts, e, b, a);
    }
  }

  lemma LaterIsAfter(text: Document, starts: seq<nat>, e: Encoding, a: nat, b: nat)
    requires AreLineStarts(text, starts) && a < b <= |text|
    ensures Before(ToPosition(text, starts, e, a), ToPosition(text, starts, e, b))
  {
    var p, q := ToPosition(text, starts, e, a), ToPosition(text, starts, e, b);
    if p.line == q.line {
      var start := starts[p.line];
      assert text[start..b] == text[start..a] + text[a..b];
      EncodedAppends(e, text[start..a], text[a..b]);
      assert Units(e, text[a..b]) > 0;
    }
  }

  /** The line starts are the only ascending list of what they are. */
  lemma LineStartsAreUnique(text: Document, starts: seq<nat>, starts': seq<nat>)
    requires AreLineStarts(text, starts) && AreLineStarts(text, starts')
    ensures starts == starts'
  {
    AscendingIsUnique(starts, starts');
  }

  lemma {:induction false} AscendingIsUnique(xs: seq<nat>, ys: seq<nat>)
    requires forall j, k | 0 <= j < k < |xs| :: xs[j] < xs[k]
    requires forall j, k | 0 <= j < k < |ys| :: ys[j] < ys[k]
    requires forall x :: x in xs <==> x in ys
    ensures xs == ys
  {
    assert xs != [] ==> xs[0] in ys;
    assert ys != [] ==> ys[0] in xs;
    if xs != [] {
      forall x ensures x in xs[1..] <==> x in ys[1..] {
        assert x in xs[1..] <==> x in xs && x != xs[0];
        assert x in ys[1..] <==> x in ys && x != ys[0];
      }
      AscendingIsUnique(xs[1..], ys[1..]);
    }
  }

  /** What a client that counts UTF-16 pairs is told apart from one that counts code points by. */
  lemma {:induction false} AstralCharactersCountTwice(text: Document)
    ensures Units(Utf32, text) == |text|
    ensures Units(Utf16, text) == |text| + |Astral(text)|
  {
    if text != [] {
      AstralCharactersCountTwice(text[1..]);
    }
  }

  function Astral(text: Document): Document {
    if text == [] then [] else (if text[0] >= 0x10000 then [text[0]] else []) + Astral(text[1..])
  }
}
