/**
 The cache key (caches/keys.py): one opaque string per catalog read, and the decoder
 that shows two reads never share one.
 */
module CacheKeys {
  import opened Utf8Bytes
  import opened Wrappers

  // ------------------------------------------------------------------ components

  predicate IsSafe(b: Byte) {
    'a' as int <= b <= 'z' as int || 'A' as int <= b <= 'Z' as int || '0' as int <= b <= '9' as int
    || b == '_' as int || b == '.' as int
  }

  function Hex(n: nat): char
    requires n < 16
  {
    if n < 10 then '0' + n as char else 'A' + (n - 10) as char
  }

  function Unhex(c: char): Option<nat> {
    if '0' <= c <= '9' then Some((c - '0') as int)
    else if 'A' <= c <= 'F' then Some((c - 'A') as int + 10)
    else None
  }

  function Escaped(b: Byte): string {
    if IsSafe(b) then [b as char] else ['%', Hex(b / 16), Hex(b % 16)]
  }

  function EscapedAll(bs: seq<Byte>): string {
    if bs == [] then "" else Escaped(bs[0]) + EscapedAll(bs[1..])
  }

  /** `_quote`: a component that is present, in ASCII and free of separators. */
  method Quote(text: string) returns (out: string)
    ensures out == Quoted(text)
  {
    var bytes := Encode(text);
    out := "+";
    for i := 0 to |bytes|
      invariant out + EscapedAll(bytes[i..]) == "+" + EscapedAll(bytes)
    {
      assert bytes[i..][1..] == bytes[i + 1..];
      assert out + (Escaped(bytes[i]) + EscapedAll(bytes[i + 1..]))
          == out + Escaped(bytes[i]) + EscapedAll(bytes[i + 1..]);
      out := out + Escaped(bytes[i]);
    }
  }

  function Quoted(text: string): string {
    "+" + EscapedAll(Encode(text))
  }

  function Component(part: Option<string>): string {
    if part.None? then "-" else Quoted(part.value)
  }

  function Unescape(s: string): Option<seq<Byte>> {
    if s == "" then Some([])
    else if s[0] == '%' then
      if |s| < 3 || Unhex(s[1]).None? || Unhex(s[2]).None? then None
      else
        var rest := Unescape(s[3..]);
        if rest.None? then None else Some([Unhex(s[1]).value * 16 + Unhex(s[2]).value] + rest.value)
    else if s[0] as int >= 256 then None
    else
      var rest := Unescape(s[1..]);
      if rest.None? then None else Some([s[0] as int] + rest.value)
  }

  lemma {:induction false} UnescapeRoundTrip(bs: seq<Byte>)
    ensures Unescape(EscapedAll(bs)) == Some(bs)
  {
    if bs != [] {
      UnescapeRoundTrip(bs[1..]);
      var s := EscapedAll(bs);
      assert s[|Escaped(bs[0])|..] == EscapedAll(bs[1..]);
      assert [bs[0]] + bs[1..] == bs;
    }
  }

  /** Reading a component: absent, or the text it spells. */
  function ReadComponent(s: string): Option<Option<string>> {
    if s == "-" then Some(None)
    else if s == "" || s[0] != '+' then None
    else
      var bytes := Unescape(s[1..]);
      if bytes.None? || Decode(bytes.value).None? then None else Some(Decode(bytes.value))
  }

  lemma ComponentRoundTrip(part: Option<string>)
    ensures ReadComponent(Component(part)) == Some(part)
  {
    if part.Some? {
      var s := Quoted(part.value);
      assert s[1..] == EscapedAll(Encode(part.value));
      UnescapeRoundTrip(Encode(part.value));
      DecodingRestores(part.value);
    }
  }

  predicate ColonFree(s: string) {
    forall i | 0 <= i < |s| :: s[i] != ':'
  }

  lemma {:induction false} EscapedIsColonFree(bs: seq<Byte>)
    ensures ColonFree(EscapedAll(bs))
  {
    if bs != [] {
      EscapedIsColonFree(bs[1..]);
    }
  }

  lemma ComponentIsColonFree(part: Option<string>)
    ensures ColonFree(Component(part))
  {
    if part.Some? {
      EscapedIsColonFree(Encode(part.value));
    }
  }

  // -------------------------------------------------------------------- the key

  datatype ReadKind = Schemas | Tables | Queryable | Columns | Functions | Values | ForeignKeys

  function KindName(kind: ReadKind): string {
    match kind
    case Schemas => "schemas"
    case Tables => "tables"
    case Queryable => "queryable"
    case Columns => "columns"
    case Functions => "functions"
    case Values => "values"
    case ForeignKeys => "fk"
  }

  function KindNamed(name: string): Option<ReadKind> {
    if name == "schemas" then Some(Schemas)
    else if name == "tables" then Some(Tables)
    else if name == "queryable" then Some(Queryable)
    else if name == "columns" then Some(Columns)
    else if name == "functions" then Some(Functions)
    else if name == "values" then Some(Values)
    else if name == "fk" then Some(ForeignKeys)
    else None
  }

  const KEY_VERSION: string := "3"

  /** One catalog read: whose, in which dialect, of what. */
  datatype Question = Question(identity: Option<string>, dialect: string, kind: ReadKind, parts: seq<Option<string>>)

  function Components(parts: seq<Option<string>>): seq<string> {
    if parts == [] then [] else [Component(parts[0])] + Components(parts[1..])
  }

  function Fields(fingerprint: string, q: Question): seq<string> {
    [KEY_VERSION, fingerprint, Component(q.identity), Quoted(q.dialect), KindName(q.kind)] + Components(q.parts)
  }

  function Join(fields: seq<string>): string
    requires fields != []
  {
    if |fields| == 1 then fields[0] else fields[0] + ":" + Join(fields[1..])
  }

  /** `cache_key`, for whatever colon-free fingerprint the cached types have. */
  function CacheKey(fingerprint: string, q: Question): string {
    Join(Fields(fingerprint, q))
  }

  /** `str.split(':')`. */
  function Split(s: string): (r: seq<string>)
    ensures r != []
  {
    if s == "" then [""]
    else if s[0] == ':' then [""] + Split(s[1..])
    else
      var rest := Split(s[1..]);
      [[s[0]] + rest[0]] + rest[1..]
  }

  lemma {:induction false} SplitField(field: string, rest: string)
    requires ColonFree(field)
    ensures Split(field + ":" + rest) == [field] + Split(rest)
  {
    if field == "" {
      assert (field + ":" + rest)[1..] == rest;
    } else {
      SplitField(field[1..], rest);
      assert (field + ":" + rest)[1..] == field[1..] + ":" + rest;
      assert [field[0]] + field[1..] == field;
    }
  }

  lemma {:induction false} SplitLast(field: string)
    requires ColonFree(field)
    ensures Split(field) == [field]
  {
    if field != "" {
      SplitLast(field[1..]);
      assert [field[0]] + field[1..] == field;
    }
  }

  lemma {:induction false} SplitUndoesJoin(fields: seq<string>)
    requires fields != [] && forall i | 0 <= i < |fields| :: ColonFree(fields[i])
    ensures Split(Join(fields)) == fields
  {
    if |fields| == 1 {
      SplitLast(fields[0]);
    } else {
      SplitUndoesJoin(fields[1..]);
      SplitField(fields[0], Join(fields[1..]));
    }
  }

  function ReadComponents(fields: seq<string>): Option<seq<Option<string>>> {
    if fields == [] then Some([])
    else
      var first, rest := ReadComponent(fields[0]), ReadComponents(fields[1..]);
      if first.None? || rest.None? then None else Some([first.value] + rest.value)
  }

  /** The read a key was made for, or None when no read has that key. */
  function ReadKey(key: string): Option<Question> {
    var fields := Split(key);
    if |fields| < 5 then None
    else
      var identity, dialect, kind := ReadComponent(fields[2]), ReadComponent(fields[3]), KindNamed(fields[4]);
      var parts := ReadComponents(fields[5..]);
      if identity.None? || dialect.None? || dialect.value.None? || kind.None? || parts.None? then None
      else Some(Question(identity.value, dialect.value.value, kind.value, parts.value))
  }

  lemma {:induction false} ComponentsRoundTrip(parts: seq<Option<string>>)
    ensures ReadComponents(Components(parts)) == Some(parts)
    ensures forall i | 0 <= i < |Components(parts)| :: ColonFree(Components(parts)[i])
  {
    if parts != [] {
      ComponentsRoundTrip(parts[1..]);
      ComponentRoundTrip(parts[0]);
      ComponentIsColonFree(parts[0]);
      assert Components(parts)[1..] == Components(parts[1..]);
      assert [parts[0]] + parts[1..] == parts;
    }
  }

  /** Reading a key gives back the read it was made for. */
  lemma KeyRoundTrip(fingerprint: string, q: Question)
    requires ColonFree(fingerprint)
    ensures ReadKey(CacheKey(fingerprint, q)) == Some(q)
  {
    hide Quoted, Component, ReadComponent, ColonFree, Join, Split;
    var fields := Fields(fingerprint, q);
    ComponentRoundTrip(q.identity);
    ComponentRoundTrip(Some(q.dialect));
    ComponentIsColonFree(q.identity);
    ComponentIsColonFree(Some(q.dialect));
    ComponentsRoundTrip(q.parts);
    PresentComponent(q.dialect);
    KindIsColonFree(q.kind);
    assert fields[5..] == Components(q.parts);
    forall i | 0 <= i < |fields|
      ensures ColonFree(fields[i])
    {
      if i >= 5 {
        assert fields[i] == Components(q.parts)[i - 5];
      }
    }
    SplitUndoesJoin(fields);
  }

  lemma PresentComponent(text: string)
    ensures Component(Some(text)) == Quoted(text)
  {
  }

  lemma KindIsColonFree(kind: ReadKind)
    ensures ColonFree(KindName(kind)) && ColonFree(KEY_VERSION) && KindNamed(KindName(kind)) == Some(kind)
  {
  }

  /** Two reads with one key are one read: the same role, dialect, kind and path, part by part. */
  lemma KeysAreInjective(fingerprint: string, q: Question, q': Question)
    requires ColonFree(fingerprint)
    requires CacheKey(fingerprint, q) == CacheKey(fingerprint, q')
    ensures q == q'
  {
    KeyRoundTrip(fingerprint, q);
    KeyRoundTrip(fingerprint, q');
  }

  // ------------------------------------------------------------ keys as they are written

  /** Letters and digits of ASCII, underscores and dots are written as they are. */
  lemma {:induction false} SafeTextIsKept(text: string)
    requires forall i | 0 <= i < |text| ::
               || text[i] == '_' || text[i] == '.'
               || 'a' <= text[i] <= 'z' || 'A' <= text[i] <= 'Z' || '0' <= text[i] <= '9'
    ensures EscapedAll(Encode(text)) == text
  {
    if text != "" {
      SafeTextIsKept(text[1..]);
      EncodeCons(text);
      assert text == [text[0]] + text[1..];
    }
  }

  /** Any other character below 128 is written as a percent sign and its two upper-case hex digits. */
  lemma OtherAsciiIsEscaped(c: char, rest: string)
    requires c < '\U{80}' && c != '_' && c != '.'
    requires !('a' <= c <= 'z') && !('A' <= c <= 'Z') && !('0' <= c <= '9')
    ensures var digits := "0123456789" + "ABCDEF";
            EscapedAll(Encode([c] + rest))
            == ['%', digits[c as int / 16], digits[c as int % 16]] + EscapedAll(Encode(rest))
  {
    assert ([c] + rest)[1..] == rest;
    EncodeCons([c] + rest);
    var n := c as int;
    HexIs(n / 16);
    HexIs(n % 16);
  }

  lemma HexIs(n: nat)
    requires n < 16
    ensures Hex(n) == ("0123456789" + "ABCDEF")[n]
  {
  }

  /** One byte for each character below 128. */
  lemma EncodeCons(text: string)
    requires text != "" && text[0] < '\U{80}'
    ensures EscapedAll(Encode(text)) == Escaped(text[0] as int) + EscapedAll(Encode(text[1..]))
  {
    assert Encode(text) == [text[0] as int] + Encode(text[1..]);
    assert Encode(text)[1..] == Encode(text[1..]);
  }

  /** A whole key: the version, the shape of what is cached, the role, the dialect, the kind and the path. */
  lemma AKeyWrittenOut()
    ensures CacheKey("f00d", Question(None, "pg", ForeignKeys, [Some("")])) == "3:f00d:-:+pg:fk:+"
  {
    SafeTextIsKept("pg");
    SafeTextIsKept("");
  }
}
