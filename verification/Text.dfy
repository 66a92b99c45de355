/**
 Strings as Python sees them: the character classes of the Unicode tables, taken
 as an abstract record, and the few `str` methods the scanner is built on.
 */
module Text {
  import opened Wrappers

  /** The character facts the engine asks Python for. */
  datatype Unicode = Unicode(
    space: char -> bool,       // str.isspace
    alpha: char -> bool,       // str.isalpha
    alnum: char -> bool,       // str.isalnum
    digit: char -> bool,       // str.isdigit
    decimal: char -> bool,     // what \d matches
    digitValue: char -> nat,   // the digit int() reads
    combining: char -> bool,   // unicodedata.combining(c) != 0
    lower: string -> string,   // str.lower
    upper: string -> string)   // str.upper

  predicate IsIdentStart(u: Unicode, c: char) {
    u.alpha(c) || c == '_'
  }

  predicate IsIdentChar(u: Unicode, c: char) {
    u.alnum(c) || c == '_' || c == '$' || u.combining(c)
  }

  /** A printable ASCII character that is neither a letter, a digit nor a space. */
  predicate IsSymbol(c: char) {
    '!' <= c <= '/' || ':' <= c <= '@' || '[' <= c <= '`' || '{' <= c <= '~'
  }

  /** What every version of the Unicode tables says about the classes above. */
  ghost predicate Sound(u: Unicode) {
    && (forall c :: u.alpha(c) ==> u.alnum(c))
    && (forall c :: u.digit(c) ==> u.alnum(c))
    && (forall c :: u.decimal(c) ==> u.digit(c) && u.digitValue(c) < 10)
    && (forall c | '0' <= c <= '9' :: u.decimal(c) && u.digitValue(c) == (c - '0') as int)
    && (forall c :: u.space(c) ==> !u.alnum(c) && !u.combining(c))
    && (forall c :: IsSymbol(c) ==> !u.space(c) && !u.alnum(c) && !u.combining(c))
    && (forall c :: IsSymbol(c) ==> u.upper([c]) == [c])
    && u.space('\n') && u.space(' ')
  }

  /** A character no run of any class crosses. */
  predicate Inert(u: Unicode, c: char) {
    !u.space(c) && !u.digit(c) && !u.alpha(c) && !u.alnum(c) && !u.combining(c) && u.upper([c]) == [c]
  }

  lemma SymbolsAreInert(u: Unicode, c: char)
    requires Sound(u) && IsSymbol(c)
    ensures Inert(u, c)
  {
  }

  function IdentChars(u: Unicode): char -> bool {
    c => IsIdentChar(u, c)
  }

  function NumberChars(u: Unicode): char -> bool {
    c => u.digit(c) || c == '.'
  }

  predicate NotNewline(c: char) {
    c != '\n'
  }

  /** How many characters at the front of `s` satisfy `p`. */
  function Run(p: char -> bool, s: string): (n: nat)
    ensures n <= |s|
    ensures forall i | 0 <= i < n :: p(s[i])
    ensures n < |s| ==> !p(s[n])
  {
    if s == [] || !p(s[0]) then 0 else 1 + Run(p, s[1..])
  }

  /** The run is the only length with its own description. */
  lemma {:induction false} RunIs(p: char -> bool, s: string, n: nat)
    requires n <= |s|
    requires forall i | 0 <= i < n :: p(s[i])
    requires n < |s| ==> !p(s[n])
    ensures Run(p, s) == n
  {
    if n > 0 {
      assert p(s[0]);
      RunIs(p, s[1..], n - 1);
    }
  }

  lemma {:induction false} RunAtLeast(p: char -> bool, s: string, n: nat)
    requires n <= |s| && forall i | 0 <= i < n :: p(s[i])
    ensures n <= Run(p, s)
  {
    if n > 0 {
      RunAtLeast(p, s[1..], n - 1);
    }
  }

  predicate OccursAt(s: string, pat: string, i: nat) {
    i + |pat| <= |s| && s[i..i + |pat|] == pat
  }

  /** `str.find`: where `pat` first occurs in `s`. */
  function Find(s: string, pat: string): (r: Option<nat>)
    ensures r.Some? ==> OccursAt(s, pat, r.value)
    ensures forall i: nat | OccursAt(s, pat, i) :: r.Some? && r.value <= i
  {
    assert OccursAt(s, pat, 0) <==> pat <= s;
    if pat <= s then
      Some(0)
    else if s == [] then
      None
    else
      var rest := Find(s[1..], pat);
      assert forall i: nat | OccursAt(s, pat, i) :: 0 < i && OccursAt(s[1..], pat, i - 1) by {
        forall i: nat | OccursAt(s, pat, i)
          ensures 0 < i && OccursAt(s[1..], pat, i - 1)
        {
          assert s[i..i + |pat|] == s[1..][i - 1..i - 1 + |pat|];
        }
      }
      if rest.Some? then
        assert s[rest.value + 1..rest.value + 1 + |pat|] == s[1..][rest.value..rest.value + |pat|];
        Some(rest.value + 1)
      else
        None
  }

  predicate IsAsciiLetter(c: char) {
    'a' <= c <= 'z' || 'A' <= c <= 'Z'
  }

  function AsciiLower(s: string): (r: string)
    ensures |r| == |s|
  {
    seq(|s|, i requires 0 <= i < |s| => if 'A' <= s[i] <= 'Z' then s[i] - 'A' + 'a' else s[i])
  }

  function AsciiUpper(s: string): (r: string)
    ensures |r| == |s|
  {
    seq(|s|, i requires 0 <= i < |s| => if 'a' <= s[i] <= 'z' then s[i] - 'a' + 'A' else s[i])
  }

  /** What every version of the tables says of ASCII letters. */
  ghost predicate KnowsAscii(u: Unicode) {
    && Sound(u) && (forall c | IsAsciiLetter(c) :: u.alpha(c))
    && (forall s | (forall i | 0 <= i < |s| :: IsAsciiLetter(s[i])) ::
          u.upper(s) == AsciiUpper(s) && u.upper(u.lower(s)) == AsciiUpper(s))
  }

  /** Every character is its own lower case. */
  ghost predicate IsLowered(u: Unicode, s: string) {
    forall i | 0 <= i < |s| :: u.lower([s[i]]) == [s[i]]
  }

  /** What every version of the tables says of lower-casing twice. */
  ghost predicate LowersOnce(u: Unicode) {
    && (forall s :: IsLowered(u, u.lower(s)))
    && (forall s | IsLowered(u, s) :: u.lower(s) == s)
    && (forall c | 'a' <= c <= 'z' || '0' <= c <= '9' :: u.lower([c]) == [c])
  }

  /** One ASCII-only reading of the tables, to show that `Sound` can be met. */
  function Ascii(): Unicode {
    Unicode(
      c => c == ' ' || ('\t' <= c <= '\r'),
      c => 'a' <= c <= 'z' || 'A' <= c <= 'Z',
      c => 'a' <= c <= 'z' || 'A' <= c <= 'Z' || '0' <= c <= '9',
      c => '0' <= c <= '9',
      c => '0' <= c <= '9',
      c => if '0' <= c <= '9' then (c - '0') as int else 0,
      c => false,
      s => AsciiLower(s),
      s => AsciiUpper(s))
  }

  lemma RaisingForgetsCase(s: string)
    ensures AsciiUpper(AsciiLower(s)) == AsciiUpper(s)
  {
  }

  lemma AsciiIsSound()
    ensures Sound(Ascii()) && KnowsAscii(Ascii())
  {
    assert Sound(Ascii());
    hide AsciiUpper, AsciiLower, Sound;
    forall s: string ensures Ascii().upper(Ascii().lower(s)) == AsciiUpper(s) {
      RaisingForgetsCase(s);
    }
  }

  lemma AsciiLowersOnce()
    ensures LowersOnce(Ascii())
  {
    var u := Ascii();
    forall s | IsLowered(u, s) ensures u.lower(s) == s {
      forall i | 0 <= i < |s| ensures u.lower(s)[i] == s[i] {
        assert u.lower([s[i]])[0] == [s[i]][0];
      }
    }
  }
}
