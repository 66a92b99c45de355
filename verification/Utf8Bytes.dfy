/** UTF-8: how a text is written in bytes, and that reading them gives it back. */
module Utf8Bytes {
  import opened Wrappers

  type Byte = n: nat | n < 256

  type CodePoint = n: nat | n < 0x110000

  /** One code point in UTF-8, as section 3 of RFC 3629 lays it out; a lone surrogate is let through. */
  function EncodePoint(n: CodePoint): (bs: seq<Byte>)
    ensures bs != []
  {
    if n < 0x80 then [n]
    else if n < 0x800 then [0xC0 + n / 0x40, 0x80 + n % 0x40]
    else if n < 0x10000 then [0xE0 + n / 0x1000, 0x80 + n / 0x40 % 0x40, 0x80 + n % 0x40]
    else [0xF0 + n / 0x40000, 0x80 + n / 0x1000 % 0x40, 0x80 + n / 0x40 % 0x40, 0x80 + n % 0x40]
  }

  function Encode(text: string): seq<Byte> {
    if text == "" then [] else EncodePoint(text[0] as int) + Encode(text[1..])
  }

  predicate IsScalar(n: nat) {
    n < 0xD800 || 0xE000 <= n < 0x110000
  }

  /** How many bytes a character led by `b` takes. */
  function Width(b: Byte): nat {
    if b < 0x80 then 1 else if b < 0xE0 then 2 else if b < 0xF0 then 3 else 4
  }

  function Low(b: Byte): nat {
    b % 0x40
  }

  /** The code point the first character of `bs` spells, well formed or not. */
  function Point(bs: seq<Byte>): nat
    requires bs != [] && Width(bs[0]) <= |bs|
  {
    var b := bs[0];
    match Width(b)
    case 1 => b
    case 2 => b % 0x20 * 0x40 + Low(bs[1])
    case 3 => b % 0x10 * 0x1000 + Low(bs[1]) * 0x40 + Low(bs[2])
    case _ => b % 8 * 0x40000 + Low(bs[1]) * 0x1000 + Low(bs[2]) * 0x40 + Low(bs[3])
  }

  function Decode(bs: seq<Byte>): Option<string> {
    if bs == [] then Some("")
    else
      var w := Width(bs[0]);
      if w > |bs| || !IsScalar(Point(bs)) then None
      else
        var rest := Decode(bs[w..]);
        if rest.None? then None else Some([Point(bs) as char] + rest.value)
  }

  lemma LowRestores(k: nat)
    ensures Low(0x80 + k % 0x40) == k % 0x40 && k == k / 0x40 * 0x40 + k % 0x40
  {
  }

  lemma LeadRestores(n: nat)
    requires n < 0x110000
    ensures n < 0x800 ==> (0xC0 + n / 0x40) % 0x20 == n / 0x40
    ensures n < 0x10000 ==> (0xE0 + n / 0x1000) % 0x10 == n / 0x1000
    ensures (0xF0 + n / 0x40000) % 8 == n / 0x40000
  {
  }

  lemma CharDecodes(c: char, rest: seq<Byte>)
    ensures var bs := EncodePoint(c as int) + rest;
            && bs != [] && Width(bs[0]) == |EncodePoint(c as int)| && Point(bs) == c as int
            && bs[Width(bs[0])..] == rest
  {
    hide Low;
    var n := c as int;
    LeadRestores(n);
    LowRestores(n);
    LowRestores(n / 0x40);
    LowRestores(n / 0x1000);
    assert n / 0x40 / 0x40 == n / 0x1000 && n / 0x1000 / 0x40 == n / 0x40000;
  }

  lemma {:induction false} DecodingRestores(text: string)
    ensures Decode(Encode(text)) == Some(text)
  {
    if text != "" {
      CharDecodes(text[0], Encode(text[1..]));
      DecodingRestores(text[1..]);
      assert IsScalar(text[0] as int);
      assert [text[0]] + text[1..] == text;
    }
  }
}
