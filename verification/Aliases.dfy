/** An alias nothing in scope answers to (joins.py, `_free_alias`, over local.py, `alias_forms`). */
module Aliases {
  import opened Text
  import opened Decimal
  import Sorting

  /** `[word for word in text.split('_') if word]`, with `word` the one being read. */
  function Words(text: string, word: string): (ws: seq<string>)
    ensures forall i | 0 <= i < |ws| :: ws[i] != ""
    decreases |text|
  {
    if text == "" then (if word == "" then [] else [word])
    else if text[0] == '_' then (if word == "" then [] else [word]) + Words(text[1..], "")
    else Words(text[1..], word + [text[0]])
  }

  function Initials(words: seq<string>): (r: string)
    requires forall i | 0 <= i < |words| :: words[i] != ""
    ensures |r| == |words| && forall i | 0 <= i < |r| :: r[i] == words[i][0]
  {
    seq(|words|, i requires 0 <= i < |words| => words[i][0])
  }

  function Unless(forms: seq<string>, form: string): seq<string> {
    if form in forms then forms else forms + [form]
  }

  /** `alias_forms`: initials of several words, the first letter, then a truncation; each once. */
  function AliasForms(u: Unicode, name: string): (forms: seq<string>)
    ensures Sorting.Distinct(forms) && forall i | 0 <= i < |forms| :: forms[i] != ""
    ensures forms == [] <==> Words(u.lower(name), "") == []
  {
    var words := Words(u.lower(name), "");
    if words == [] then []
    else
      var first := if |words| > 1 then [Initials(words)] else [];
      var second := Unless(first, [words[0][0]]);
      if |words[0]| > 3 then Unless(second, words[0][..3]) else second
  }

  function Unreserved(u: Unicode, forms: seq<string>, reserved: set<string>): (r: seq<string>)
    ensures forall i | 0 <= i < |r| :: r[i] in forms && u.lower(r[i]) !in reserved
    ensures forall i | 0 <= i < |forms| && u.lower(forms[i]) !in reserved :: forms[i] in r
    ensures r != [] ==> exists k | 0 <= k < |forms| ::
              forms[k] == r[0] && forall j | 0 <= j < k :: u.lower(forms[j]) in reserved
  {
    if forms == [] then []
    else
      var rest := Unreserved(u, forms[1..], reserved);
      if u.lower(forms[0]) in reserved then
        assert rest != [] ==> exists k | 0 <= k < |forms[1..]| :: forms[1..][k] == rest[0]
                                && forall j | 0 <= j < k :: u.lower(forms[1..][j]) in reserved;
        rest
      else
        assert forms[0] == ([forms[0]] + rest)[0];
        [forms[0]] + rest
  }

  function AlnumOnly(u: Unicode, text: string): string {
    if text == "" then "" else (if u.alnum(text[0]) then [text[0]] else "") + AlnumOnly(u, text[1..])
  }

  /** What a numbered alias is built on. */
  function Stem(u: Unicode, name: string, forms: seq<string>): (stem: string)
    requires forms != [] ==> forms[0] != ""
    ensures stem != ""
  {
    if forms != [] then forms[0]
    else
      var letters := AlnumOnly(u, u.lower(if |name| < 3 then name else name[..3]));
      if letters == "" then "t" else letters
  }

  function NumberedForm(stem: string, n: nat): string {
    stem + Print(n)
  }

  lemma NumberedFormsDiffer(stem: string, m: nat, n: nat)
    requires NumberedForm(stem, m) == NumberedForm(stem, n)
    ensures m == n
  {
    assert NumberedForm(stem, m)[|stem|..] == Print(m) && NumberedForm(stem, n)[|stem|..] == Print(n);
    PrintIsInjective(m, n);
  }

  /** An idiomatic form, the first no relation answers to and no word reserves; or the least free number from 2. */
  ghost predicate IsFreeAlias(u: Unicode, name: string, taken: set<string>, reserved: set<string>, alias: string) {
    var forms := Unreserved(u, AliasForms(u, name), reserved);
    || (exists k | 0 <= k < |forms| ::
          && alias == forms[k] && u.lower(alias) !in taken
          && forall j | 0 <= j < k :: u.lower(forms[j]) in taken)
    || ((forall j | 0 <= j < |forms| :: u.lower(forms[j]) in taken)
        && exists n: nat :: n >= 2 && IsLeastFree(Stem(u, name, forms), taken, alias, n))
  }

  ghost predicate IsLeastFree(stem: string, taken: set<string>, alias: string, n: nat) {
    alias == NumberedForm(stem, n) && alias !in taken && forall m: nat | 2 <= m < n :: NumberedForm(stem, m) in taken
  }

  /** `_free_alias`: however many names are taken, a number past them is free. */
  method FreeAlias(u: Unicode, name: string, taken: set<string>, reserved: set<string>) returns (alias: string)
    ensures IsFreeAlias(u, name, taken, reserved, alias)
  {
    hide AliasForms, Stem, Unreserved;
    var forms := Unreserved(u, AliasForms(u, name), reserved);
    for k := 0 to |forms|
      invariant forall j | 0 <= j < k :: u.lower(forms[j]) in taken
    {
      if u.lower(forms[k]) !in taken {
        return forms[k];
      }
    }
    var stem := Stem(u, name, forms);
    var suffix := LeastFree(stem, taken);
    alias := NumberedForm(stem, suffix);
    assert IsLeastFree(stem, taken, alias, suffix);
  }

  /** The numbered loop: each turn meets another taken name, so there are at most `|taken|` of them. */
  method LeastFree(stem: string, taken: set<string>) returns (suffix: nat)
    ensures suffix >= 2 && IsLeastFree(stem, taken, NumberedForm(stem, suffix), suffix)
    ensures suffix - 2 <= |taken|
  {
    suffix := 2;
    ghost var met: set<string> := {};
    while NumberedForm(stem, suffix) in taken
      invariant suffix >= 2 && met <= taken && |met| == suffix - 2
      invariant forall m: nat | 2 <= m < suffix :: NumberedForm(stem, m) in met
      invariant forall x | x in met :: exists m: nat :: 2 <= m < suffix && x == NumberedForm(stem, m)
      decreases |taken| - |met|
    {
      NewNumber(stem, suffix, met);
      var next := met + {NumberedForm(stem, suffix)};
      FewerThan(next, taken);
      met := next;
      suffix := suffix + 1;
    }
    FewerThan(met, taken);
  }

  lemma NewNumber(stem: string, suffix: nat, met: set<string>)
    requires forall x | x in met :: exists m: nat :: 2 <= m < suffix && x == NumberedForm(stem, m)
    ensures NumberedForm(stem, suffix) !in met
  {
    if NumberedForm(stem, suffix) in met {
      var m: nat :| 2 <= m < suffix && NumberedForm(stem, suffix) == NumberedForm(stem, m);
      NumberedFormsDiffer(stem, suffix, m);
    }
  }

  lemma FewerThan(a: set<string>, b: set<string>)
    requires a <= b
    ensures |a| <= |b|
  {
    assert a + (b - a) == b;
  }

  // ------------------------------------------------------------- no alias is answered to

  lemma {:induction false} WordsAreLowered(u: Unicode, text: string, word: string)
    requires IsLowered(u, text) && IsLowered(u, word)
    ensures forall i | 0 <= i < |Words(text, word)| :: IsLowered(u, Words(text, word)[i])
    decreases |text|
  {
    if text != "" {
      assert IsLowered(u, text[1..]);
      if text[0] == '_' {
        WordsAreLowered(u, text[1..], "");
      } else {
        WordsAreLowered(u, text[1..], word + [text[0]]);
      }
    }
  }

  lemma FormsAreLowered(u: Unicode, name: string)
    requires LowersOnce(u)
    ensures forall i | 0 <= i < |AliasForms(u, name)| :: IsLowered(u, AliasForms(u, name)[i])
  {
    var words := Words(u.lower(name), "");
    WordsAreLowered(u, u.lower(name), "");
    if words != [] {
      assert IsLowered(u, words[0]);
      assert forall i | 0 <= i < |words| :: IsLowered(u, words[i]) && u.lower([words[i][0]]) == [words[i][0]];
      assert IsLowered(u, Initials(words));
    }
  }

  lemma {:induction false} LettersAreLowered(u: Unicode, text: string)
    requires IsLowered(u, text)
    ensures IsLowered(u, AlnumOnly(u, text))
  {
    if text != "" {
      assert IsLowered(u, text[1..]);
      LettersAreLowered(u, text[1..]);
    }
  }

  lemma StemIsLowered(u: Unicode, name: string, reserved: set<string>)
    requires LowersOnce(u)
    ensures IsLowered(u, Stem(u, name, Unreserved(u, AliasForms(u, name), reserved)))
  {
    hide AliasForms, Unreserved;
    FormsAreLowered(u, name);
    LettersAreLowered(u, u.lower(if |name| < 3 then name else name[..3]));
  }

  /** Nothing in scope answers to a free alias, in the case written or in lower case. */
  lemma FreeAliasIsNotTaken(u: Unicode, name: string, taken: set<string>, reserved: set<string>, alias: string)
    requires LowersOnce(u) && IsFreeAlias(u, name, taken, reserved, alias)
    ensures u.lower(alias) == alias && alias !in taken
  {
    hide AliasForms, Stem, Unreserved;
    var forms := Unreserved(u, AliasForms(u, name), reserved);
    FormsAreLowered(u, name);
    StemIsLowered(u, name, reserved);
    if !exists k | 0 <= k < |forms| :: alias == forms[k] {
      var n: nat :| n >= 2 && IsLeastFree(Stem(u, name, forms), taken, alias, n);
      assert IsLowered(u, Print(n));
    }
    assert IsLowered(u, alias);
  }

  // ---------------------------------------------------------- which forms, in what order

  /** A stretch of the text with no underscore in it, and none or the text's end on either side. */
  ghost predicate IsStretch(text: string, lo: nat, hi: nat) {
    && lo < hi <= |text| && (forall i | lo <= i < hi :: text[i] != '_')
    && (lo == 0 || text[lo - 1] == '_') && (hi == |text| || text[hi] == '_')
  }

  /** The words are all the stretches of the text from `from` on, in their order. */
  ghost predicate AreStretches(text: string, from: nat, words: seq<string>, at: seq<(nat, nat)>) {
    && |at| == |words|
    && (forall k | 0 <= k < |at| ::
          IsStretch(text, at[k].0, at[k].1) && from <= at[k].0 && words[k] == text[at[k].0..at[k].1])
    && (forall j, k | 0 <= j < k < |at| :: at[j].1 < at[k].0)
    && (forall lo: nat, hi: nat | from <= lo && IsStretch(text, lo, hi) :: (lo, hi) in at)
  }

  lemma LastStretch(text: string, from: nat)
    requires from <= |text| && (from == 0 || text[from - 1] == '_') && forall k | from <= k < |text| :: text[k] != '_'
    ensures from == |text| ==> AreStretches(text, from, [], [])
    ensures from < |text| ==> AreStretches(text, from, [text[from..]], [(from, |text|)])
  {
  }

  lemma PastAGap(text: string, i: nat, words: seq<string>, at: seq<(nat, nat)>)
    requires i < |text| && text[i] == '_' && AreStretches(text, i + 1, words, at)
    ensures AreStretches(text, i, words, at)
  {
    forall lo: nat, hi: nat | i <= lo && IsStretch(text, lo, hi) ensures lo > i {
    }
  }

  lemma OneMoreStretch(text: string, from: nat, i: nat, words: seq<string>, at: seq<(nat, nat)>)
    requires from < i < |text| && IsStretch(text, from, i) && AreStretches(text, i + 1, words, at)
    requires forall lo: nat, hi: nat | from <= lo && IsStretch(text, lo, hi) :: lo > i || (lo == from && hi == i)
    ensures AreStretches(text, from, [text[from..i]] + words, [(from, i)] + at)
  {
    hide IsStretch;
    var all, more := [(from, i)] + at, [text[from..i]] + words;
    assert forall k | 1 <= k < |all| :: all[k] == at[k - 1] && more[k] == words[k - 1];
    forall lo: nat, hi: nat | from <= lo && IsStretch(text, lo, hi) ensures (lo, hi) in all {
      assert lo > i ==> (lo, hi) in at;
    }
  }

  lemma StretchesAre(text: string, from: nat, i: nat, lo: nat, hi: nat)
    requires from <= i < |text| && text[i] == '_' && (from == 0 || text[from - 1] == '_')
    requires (forall k | from <= k < i :: text[k] != '_') && from <= lo
    ensures from < i ==> IsStretch(text, from, i)
    ensures IsStretch(text, lo, hi) ==> lo > i || (lo == from < i && hi == i)
  {
    if IsStretch(text, lo, hi) && lo <= i {
      assert hi <= i;
      assert lo == from;
    }
  }

  lemma {:induction false} WordsAreStretches(text: string, from: nat, i: nat) returns (at: seq<(nat, nat)>)
    requires from <= i <= |text| && (from == 0 || text[from - 1] == '_') && forall k | from <= k < i :: text[k] != '_'
    ensures AreStretches(text, from, Words(text[i..], text[from..i]), at)
    decreases |text| - i
  {
    hide AreStretches;
    if i == |text| {
      LastStretch(text, from);
      assert text[i..] == "" && text[from..i] == text[from..];
      at := if from == i then [] else [(from, i)];
    } else if text[i] == '_' {
      var rest := WordsAreStretches(text, i + 1, i + 1);
      assert text[i..][1..] == text[i + 1..] && text[i + 1..i + 1] == "";
      var words := Words(text[i + 1..], "");
      if from == i {
        at := rest;
        PastAGap(text, i, words, at);
        assert [] + words == words;
      } else {
        at := [(from, i)] + rest;
        forall lo: nat, hi: nat | from <= lo && IsStretch(text, lo, hi) ensures lo > i || (lo == from && hi == i) {
          StretchesAre(text, from, i, lo, hi);
        }
        StretchesAre(text, from, i, from, i);
        OneMoreStretch(text, from, i, words, rest);
      }
    } else {
      at := WordsAreStretches(text, from, i + 1);
      assert text[i..][1..] == text[i + 1..] && text[from..i] + [text[i]] == text[from..i + 1];
    }
  }

  /**
   The forms of a name, from the words between its underscores: of several words the initials come first; then
   the first letter; then the first three of a first word of more, unless those are the initials.
   */
  lemma FormsAre(u: Unicode, name: string) returns (words: seq<string>, at: seq<(nat, nat)>)
    ensures AreStretches(u.lower(name), 0, words, at)
    ensures forall k | 0 <= k < |words| :: words[k] != ""
    ensures var forms := AliasForms(u, name);
            && (|words| == 0 ==> forms == [])
            && (|words| > 0 ==>
                  var short, cut := words[0][..1], if |words[0]| > 3 then [words[0][..3]] else [];
                  if |words| == 1 then forms == [short] + cut
                  else
                    var initials := seq(|words|, k requires 0 <= k < |words| => words[k][0]);
                    forms == [initials, short] + if cut == [initials] then [] else cut)
  {
    at := WordsAreStretches(u.lower(name), 0, 0);
    words := Words(u.lower(name), "");
    assert u.lower(name)[0..] == u.lower(name) && u.lower(name)[0..0] == "";
    if |words| > 0 {
      assert words[0][..1] == [words[0][0]];
      assert |words| > 1 ==> Initials(words) == seq(|words|, k requires 0 <= k < |words| => words[k][0]);
    }
  }
}
