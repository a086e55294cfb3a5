/**
 Placeholders `{{LABEL_suffix}}`: their canonical shape, the hand-written forms of
 the fixed regular expressions of src/mask/placeholder.rs, and the facts about
 those matchers that every restore theorem rests on.

 Every matcher takes the rest of the haystack and matches at its first character.
 That is enough because none of the patterns looks behind; `find_iter` is then the
 left-to-right scan that tries the matcher at each character.
 */
module Placeholders {
  import opened Wrappers
  import opened Seqs

  // ---------------------------------------------------------------- characters

  const KELVIN: char := '\U{212A}'   // folds to 'k'
  const LONG_S: char := '\U{017F}'   // folds to 's'

  predicate IsUpper(c: char) { 'A' <= c <= 'Z' }
  predicate IsLower(c: char) { 'a' <= c <= 'z' }
  predicate IsDigit(c: char) { '0' <= c <= '9' }

  /** `[A-Z0-9]` */
  predicate IsLabelChar(c: char) { IsUpper(c) || IsDigit(c) }

  /** `[A-Za-z0-9_]` */
  predicate IsWordChar(c: char) { IsLabelChar(c) || IsLower(c) || c == '_' }

  /** `(?i)[A-Za-z0-9_]`: Unicode case folding adds two letters. */
  predicate IsWordCharCi(c: char) { IsWordChar(c) || c == KELVIN || c == LONG_S }

  /** `\s`, the Unicode White_Space property. */
  predicate IsWhite(c: char) {
    || '\U{9}' <= c <= '\U{D}' || c == ' ' || c == '\U{85}' || c == '\U{A0}' || c == '\U{1680}'
    || '\U{2000}' <= c <= '\U{200A}' || c == '\U{2028}' || c == '\U{2029}' || c == '\U{202F}'
    || c == '\U{205F}' || c == '\U{3000}'
  }

  predicate IsHex(c: char) { IsDigit(c) || 'a' <= c <= 'f' }

  /** TOKEN_ALPHABET */
  predicate IsConsonant(c: char) { c in "bcdfghjkmnpqrstvwxz" }

  predicate IsHexCi(c: char) { IsHex(c) || 'A' <= c <= 'F' }

  predicate IsConsonantCi(c: char) {
    IsConsonant(c) || c in "BCDFGHJKMNPQRSTVWXZ" || c == KELVIN || c == LONG_S
  }

  predicate IsBackslash(c: char) { c == '\\' }
  predicate IsCloser(c: char) { c == '}' }

  predicate All(p: char -> bool, s: string) { forall i :: 0 <= i < |s| ==> p(s[i]) }

  predicate BraceFree(s: string) { '{' !in s && '}' !in s }

  /** SUFFIX_PAT */
  predicate IsSuffix(s: string) { |s| == 6 && (All(IsHex, s) || All(IsConsonant, s)) }

  /** `(?i:SUFFIX_PAT)` */
  predicate IsSuffixCi(s: string) { |s| == 6 && (All(IsHexCi, s) || All(IsConsonantCi, s)) }

  predicate IsLabel(s: string) { 1 <= |s| <= 12 && All(IsLabelChar, s) }

  /** UTF-8 length of one character. */
  function Utf8Len(c: char): nat {
    if c < '\U{80}' then 1 else if c < '\U{800}' then 2 else if c < '\U{10000}' then 3 else 4
  }

  function Utf8Size(s: string): nat {
    if s == [] then 0 else Utf8Len(s[0]) + Utf8Size(s[1..])
  }

  // ------------------------------------------------------------ case and labels

  /** `to_lowercase` on the characters a suffix can hold. */
  function LowerChar(c: char): char {
    if IsUpper(c) then c - 'A' + 'a' else if c == KELVIN then 'k' else c
  }

  function Lower(s: string): (r: string)
    ensures |r| == |s|
    ensures forall i :: 0 <= i < |s| ==> r[i] == LowerChar(s[i])
  {
    seq(|s|, i requires 0 <= i < |s| => LowerChar(s[i]))
  }

  /** `to_uppercase` on the characters a label can hold. */
  function UpperChar(c: char): char {
    if IsLower(c) then c - 'a' + 'A' else if c == LONG_S then 'S' else c
  }

  function LabelFilter(s: string): (r: string)
    ensures All(IsLabelChar, r)
  {
    if s == [] then []
    else if IsLabelChar(UpperChar(s[0])) then [UpperChar(s[0])] + LabelFilter(s[1..])
    else LabelFilter(s[1..])
  }

  function SafeLabel(tag: string): (r: string)
    ensures IsLabel(r)
  {
    var kept := LabelFilter(tag);
    var cut := if |kept| > 12 then kept[..12] else kept;
    if cut == [] then "TERM" else cut
  }

  function Wrap(body: string): string { "{{" + body + "}}" }

  function Token(tag: string, suffix: string): string { "{{" + tag + "_" + suffix + "}}" }

  function Canonicalize(tag: string, suffix: string): string {
    Token(SafeLabel(tag), Lower(suffix))
  }

  lemma {:induction false} LabelFilterKeeps(s: string)
    requires All(IsLabelChar, s)
    ensures LabelFilter(s) == s
  {
    if s != [] {
      assert IsLabelChar(s[0]);
      assert All(IsLabelChar, s[1..]);
      LabelFilterKeeps(s[1..]);
    }
  }

  /** Normalising a canonical token gives it back: the restore side looks up what was issued. */
  lemma {:induction false} CanonicalFixed(tag: string, suffix: string)
    requires IsLabel(tag) && IsSuffix(suffix)
    ensures Canonicalize(tag, suffix) == Token(tag, suffix)
  {
    LabelFilterKeeps(tag);
    assert Lower(suffix) == suffix;
  }

  // ------------------------------------------------------------------- matchers

  /** A repetition bound, cut to what is left of the text. */
  function AtMost(max: nat, s: string): nat { if |s| < max then |s| else max }

  /** A match of the first `len` characters. */
  datatype Match = Match(len: nat, tag: string, suffix: string)

  /** A match that starts after `skip` characters, counted from the start. */
  function Shift(skip: nat, m: Option<Match>): Option<Match> {
    if m.None? then None else Some(Match(skip + m.value.len, m.value.tag, m.value.suffix))
  }

  /** Greedy run of a class, capped: `[class]{0,max}`. */
  function Run(s: string, p: char -> bool, max: nat): (n: nat)
    ensures n <= |s| && n <= max
    ensures n < |s| && n < max ==> !p(s[n])
  {
    if max == 0 || s == [] || !p(s[0]) then 0 else 1 + Run(s[1..], p, max - 1)
  }

  /** A run is made of the class. */
  lemma {:induction false} RunAll(s: string, p: char -> bool, max: nat)
    ensures All(p, s[..Run(s, p, max)])
  {
    var n := Run(s, p, max);
    if n > 0 {
      RunAll(s[1..], p, max - 1);
      assert s[..n] == [s[0]] + s[1..][..n - 1];
    }
  }

  lemma {:induction false} RunLength(s: string, p: char -> bool, max: nat, m: nat)
    requires m <= |s| && m <= max
    requires forall i :: 0 <= i < m ==> p(s[i])
    requires m < |s| && m < max ==> !p(s[m])
    ensures Run(s, p, max) == m
  {
    if m > 0 { RunLength(s[1..], p, max - 1, m - 1); }
  }

  /** `[word]{n}_SUFFIX` at the head of s. */
  predicate LabelSuffix(s: string, n: nat, word: char -> bool) {
    && n + 7 <= |s|
    && All(word, s[..n])
    && s[n] == '_'
    && IsSuffixCi(s[n + 1..n + 7])
  }

  /** The tail of the double-brace form after the opening braces and white space. */
  function BracedTry(s: string, n: nat): (m: Option<Match>)
    ensures m.Some? ==> m.value.len <= |s|
  {
    if n == 0 then None
    else if LabelSuffix(s, n, IsWordChar) then
      var q := n + 7 + Run(s[n + 7..], IsWhite, |s|);
      if q + 2 <= |s| && s[q] == '}' && s[q + 1] == '}'
      then Some(Match(q + 2, s[..n], s[n + 1..n + 7]))
      else BracedTry(s, n - 1)
    else BracedTry(s, n - 1)
  }

  /** braced_placeholder_rx: `\{\{\s*([A-Za-z0-9_]{1,12})_((?i:SUFFIX))\s*\}\}` */
  function Braced(s: string): (m: Option<Match>)
    ensures m.Some? ==> 2 <= m.value.len <= |s|
  {
    if |s| >= 2 && s[0] == '{' && s[1] == '{' then
      var p := 2 + Run(s[2..], IsWhite, |s|);
      Shift(p, BracedTry(s[p..], AtMost(12, s[p..])))
    else None
  }

  /** placeholder_rx, the strict form: the length of the match at the head of s, 0 if none. */
  function StrictLen(s: string): (n: nat)
    ensures n <= |s|
  {
    if |s| >= 2 && s[0] == '{' && s[1] == '{' then
      var l := Run(s[2..], IsLabelChar, 12);
      var e := l + 11;
      if 1 <= l && e <= |s| && s[l + 2] == '_' && IsSuffix(s[l + 3..l + 9]) && s[l + 9] == '}' && s[l + 10] == '}'
      then e else 0
    else 0
  }

  /** One group `\\{0,3}b`: its length, 0 if it does not match. */
  function Group(s: string, brace: char): (n: nat)
    ensures n <= |s|
    ensures n > 0 ==> n <= 4 && s[n - 1] == brace
  {
    var b := Run(s, IsBackslash, 3);
    if b < |s| && s[b] == brace then b + 1 else 0
  }

  /** Up to k closing groups, greedily: the length they take. */
  function Closers(s: string, k: nat): (n: nat)
    ensures n <= |s|
  {
    if k == 0 then 0
    else
      var g := Group(s, '}');
      if g == 0 then 0 else g + Closers(s[g..], k - 1)
  }

  function EscapedTry(s: string, n: nat): (m: Option<Match>)
    ensures m.Some? ==> 0 < m.value.len <= |s|
  {
    if n == 0 then None
    else if LabelSuffix(s, n, IsWordCharCi) then
      var q := n + 7 + Run(s[n + 7..], IsWhite, |s|);
      var e := Closers(s[q..], AtMost(3, s[q..]));
      if e > 0 then Some(Match(q + e, s[..n], s[n + 1..n + 7])) else EscapedTry(s, n - 1)
    else EscapedTry(s, n - 1)
  }

  /** What follows the opening groups. */
  function EscapedBody(s: string): (m: Option<Match>)
    ensures m.Some? ==> 0 < m.value.len <= |s|
  {
    var b := Run(s, IsBackslash, 3);
    var p := b + Run(s[b..], IsWhite, |s|);
    Shift(p, EscapedTry(s[p..], AtMost(12, s[p..])))
  }

  /** Up to k opening groups, greedily: the length they take. */
  function Openers(s: string, k: nat): (n: nat)
    ensures n <= |s|
  {
    if k == 0 then 0
    else
      var g := Group(s, '{');
      if g == 0 then 0 else g + Openers(s[g..], k - 1)
  }

  /**
   escaped_placeholder_rx. Taking fewer groups than there are never helps
   (`BodyRejectsGroup`), so the greedy choice is the only one.
   */
  function Escaped(s: string): (m: Option<Match>)
    ensures m.Some? ==> 0 < m.value.len <= |s|
  {
    var g := Openers(s, AtMost(3, s));
    if g == 0 then None else Shift(g, EscapedBody(s[g..]))
  }

  /** A match of the loose pattern; `bare` tells its second alternative. */
  datatype LooseMatch = LooseMatch(len: nat, body: string, bare: bool)

  function LooseTry(s: string, n: nat): (m: Option<LooseMatch>)
    ensures m.Some? ==> 0 < m.value.len <= |s|
  {
    if n == 0 then None
    else if LabelSuffix(s, n, IsWordChar) then
      var q := n + 7 + Run(s[n + 7..], IsWhite, |s|);
      var e := Run(s[q..], IsCloser, 2);
      Some(LooseMatch(q + e, s[..n + 7], false))
    else LooseTry(s, n - 1)
  }

  /** After k opening braces. */
  function LooseBraced(s: string, k: nat): (m: Option<LooseMatch>)
    requires k <= |s|
    ensures m.Some? ==> 0 < m.value.len <= |s|
  {
    var p := k + Run(s[k..], IsWhite, |s|);
    var m := LooseTry(s[p..], AtMost(12, s[p..]));
    if m.None? then None else Some(LooseMatch(p + m.value.len, m.value.body, false))
  }

  function BareTry(s: string, n: nat): (m: Option<LooseMatch>)
    ensures m.Some? ==> 0 < m.value.len <= |s|
  {
    if n == 0 then None
    else if LabelSuffix(s, n, IsLabelChar) then Some(LooseMatch(n + 7, s[..n + 7], true))
    else BareTry(s, n - 1)
  }

  /** loose_placeholder_rx: one or two braces with optional closers, or the bare form. */
  function Loose(s: string): (m: Option<LooseMatch>)
    ensures m.Some? ==> 0 < m.value.len <= |s|
  {
    var two := if |s| >= 2 && s[0] == '{' && s[1] == '{' then LooseBraced(s, 2) else None;
    if two.Some? then two
    else
      var one := if |s| >= 1 && s[0] == '{' then LooseBraced(s, 1) else None;
      if one.Some? then one else BareTry(s, AtMost(12, s))
  }

  // ------------------------------------------------- matchers on canonical tokens

  /** s begins with `LABEL_suffix}}`. */
  ghost predicate BodyAt(s: string, tag: string, suffix: string) {
    && IsLabel(tag) && IsSuffix(suffix)
    && |tag| + 9 <= |s|
    && s[..|tag|] == tag && s[|tag|] == '_' && s[|tag| + 1..|tag| + 7] == suffix
    && s[|tag| + 7] == '}' && s[|tag| + 8] == '}'
  }

  /** s begins with the token. */
  ghost predicate TokenAt(s: string, tag: string, suffix: string) {
    |s| >= 2 && s[0] == '{' && s[1] == '{' && BodyAt(s[2..], tag, suffix)
  }

  lemma {:induction false} TokenIsAt(tag: string, suffix: string, rest: string)
    requires IsLabel(tag) && IsSuffix(suffix)
    ensures var s := Token(tag, suffix) + rest;
            TokenAt(s, tag, suffix) && s[..|tag| + 11] == Token(tag, suffix) && s[|tag| + 11..] == rest
  {
    var s := Token(tag, suffix) + rest;
    var t := s[2..];
    assert t == tag + ("_" + suffix + "}}" + rest);
    assert t[..|tag|] == tag;
    assert t[|tag| + 1..|tag| + 7] == suffix;
  }

  /** A class that holds every label character and no closing brace. */
  ghost predicate CoversLabels(word: char -> bool) {
    !word('}') && forall c :: IsLabelChar(c) ==> word(c)
  }

  lemma {:induction false} IssuedSplit(s: string, tag: string, suffix: string, word: char -> bool)
    requires BodyAt(s, tag, suffix) && CoversLabels(word)
    ensures LabelSuffix(s, |tag|, word)
  {
    forall i | 0 <= i < |tag| ensures word(s[..|tag|][i]) { assert IsLabelChar(tag[i]); }
    forall i | 0 <= i < 6 ensures IsHex(suffix[i]) ==> IsHexCi(suffix[i]) {}
  }

  /** Before the underscore there are label characters, behind it those of the suffix, then a brace. */
  lemma {:induction false} BodyChars(s: string, tag: string, suffix: string, i: nat)
    requires BodyAt(s, tag, suffix) && i <= |tag| + 7
    ensures i != |tag| ==> s[i] != '_'
    ensures i == |tag| + 7 ==> s[i] == '}'
  {
    var l := |tag|;
    if i < l { assert s[i] == s[..l][i] == tag[i]; }
    if l < i < l + 7 { assert s[i] == s[l + 1..l + 7][i - l - 1] == suffix[i - l - 1]; }
  }

  lemma {:induction false} OtherSplit(s: string, tag: string, suffix: string, n: nat, word: char -> bool)
    requires BodyAt(s, tag, suffix) && !word('}') && n != |tag|
    ensures !LabelSuffix(s, n, word)
  {
    if n <= |tag| + 7 {
      BodyChars(s, tag, suffix, n);
    } else if n + 7 <= |s| {
      BodyChars(s, tag, suffix, |tag| + 7);
      InTake(s, |tag| + 7, n);
    }
  }

  /** In `LABEL_suffix}...` the only split of label and suffix is the issued one. */
  lemma {:induction false} OnlySplit(s: string, tag: string, suffix: string, n: nat, word: char -> bool)
    requires BodyAt(s, tag, suffix) && CoversLabels(word)
    ensures LabelSuffix(s, n, word) <==> n == |tag|
  {
    if n == |tag| { IssuedSplit(s, tag, suffix, word); } else { OtherSplit(s, tag, suffix, n, word); }
  }

  lemma {:induction false} BracedTryToken(s: string, tag: string, suffix: string, n: nat)
    requires BodyAt(s, tag, suffix) && |tag| <= n
    ensures BracedTry(s, n) == Some(Match(|tag| + 9, tag, suffix))
  {
    OnlySplit(s, tag, suffix, n, IsWordChar);
    if n > |tag| {
      BracedTryToken(s, tag, suffix, n - 1);
    } else {
      assert s[n + 7..][0] == '}';
    }
  }

  /** The double-brace pattern finds an issued token exactly as issued. */
  lemma {:induction false} BracedToken(s: string, tag: string, suffix: string)
    requires TokenAt(s, tag, suffix)
    ensures Braced(s) == Some(Match(|tag| + 11, tag, suffix))
  {
    assert s[2..][0] == s[2..][..|tag|][0];
    assert Run(s[2..], IsWhite, |s|) == 0;
    BracedTryToken(s[2..], tag, suffix, AtMost(12, s[2..]));
  }

  lemma {:induction false} LooseTryToken(s: string, tag: string, suffix: string, n: nat)
    requires BodyAt(s, tag, suffix) && |tag| <= n
    ensures LooseTry(s, n) == Some(LooseMatch(|tag| + 9, s[..|tag| + 7], false))
  {
    OnlySplit(s, tag, suffix, n, IsWordChar);
    if n > |tag| {
      LooseTryToken(s, tag, suffix, n - 1);
    } else {
      var t := s[n + 7..];
      assert t[0] == '}' && t[1..][0] == '}';
      assert Run(t[1..], IsCloser, 1) == 1 + Run(t[1..][1..], IsCloser, 0);
      assert Run(t, IsCloser, 2) == 2;
    }
  }

  /** The loose pattern takes an issued token whole. */
  lemma {:induction false} LooseToken(s: string, tag: string, suffix: string)
    requires TokenAt(s, tag, suffix)
    ensures Loose(s) == Some(LooseMatch(|tag| + 11, s[2..|tag| + 9], false))
  {
    assert s[2..][0] == s[2..][..|tag|][0];
    assert Run(s[2..], IsWhite, |s|) == 0;
    LooseTryToken(s[2..], tag, suffix, AtMost(12, s[2..]));
    assert s[2..][..|tag| + 7] == s[2..|tag| + 9];
  }

  /** Two closing braces are all the closers there are, when no further group follows. */
  lemma {:induction false} ClosersToken(t: string)
    requires |t| >= 2 && t[0] == '}' && t[1] == '}' && Group(t[2..], '}') == 0
    ensures Closers(t, AtMost(3, t)) == 2
  {
    var u := t[1..];
    assert u[1..] == t[2..];
    assert Group(t, '}') == 1 && Group(u, '}') == 1;
    assert Closers(t[2..], AtMost(3, t) - 2) == 0;
    assert Closers(u, AtMost(3, t) - 1) == 1;
  }

  lemma {:induction false} EscapedTryToken(s: string, tag: string, suffix: string, n: nat)
    requires BodyAt(s, tag, suffix) && |tag| <= n
    requires Group(s[|tag| + 9..], '}') == 0
    ensures EscapedTry(s, n) == Some(Match(|tag| + 9, tag, suffix))
  {
    OnlySplit(s, tag, suffix, n, IsWordCharCi);
    if n > |tag| {
      EscapedTryToken(s, tag, suffix, n - 1);
    } else {
      var t := s[n + 7..];
      assert t[2..] == s[n + 9..];
      assert Run(t, IsWhite, |s|) == 0;
      ClosersToken(t);
    }
  }

  lemma {:induction false} EscapedBodyToken(s: string, tag: string, suffix: string)
    requires BodyAt(s, tag, suffix) && Group(s[|tag| + 9..], '}') == 0
    ensures EscapedBody(s) == Some(Match(|tag| + 9, tag, suffix))
  {
    assert s[0] == s[..|tag|][0];
    assert Run(s, IsBackslash, 3) == 0 && Run(s, IsWhite, |s|) == 0;
    assert s[0..] == s;
    EscapedTryToken(s, tag, suffix, AtMost(12, s));
  }

  lemma {:induction false} LabelSuffixHead(s: string, n: nat, word: char -> bool)
    requires n > 0
    ensures LabelSuffix(s, n, word) ==> s != [] && word(s[0])
  {
    assert LabelSuffix(s, n, word) ==> s[0] == s[..n][0];
  }

  lemma {:induction false} NoLabelNoTry(s: string, n: nat)
    requires s == [] || !IsWordCharCi(s[0])
    ensures EscapedTry(s, n) == None
  {
    if n > 0 {
      LabelSuffixHead(s, n, IsWordCharCi);
      NoLabelNoTry(s, n - 1);
    }
  }

  /** The body of the escaped form cannot begin with another opening group. */
  lemma {:induction false} BodyRejectsGroup(s: string)
    requires Group(s, '{') > 0
    ensures EscapedBody(s) == None
  {
    var b := Run(s, IsBackslash, 3);
    assert Group(s, '{') == b + 1;
    assert s[b..][0] == '{';
    assert Run(s[b..], IsWhite, |s|) == 0;
    assert s[b + 0..] == s[b..];
    NoLabelNoTry(s[b..], AtMost(12, s[b..]));
  }

  /** The opening groups before a token body: j backslashes, then the token's two braces. */
  lemma {:induction false} OpenersToken(s: string, t: string, j: nat)
    requires j + 3 <= |s| && t == s[j..] && t[0] == '{' && t[1] == '{' && IsLabelChar(t[2])
    requires Group(s, '{') == j + 1
    ensures Openers(s, AtMost(3, s)) == j + 2
  {
    var u, v := t[1..], t[2..];
    assert s[j + 1..] == u && u[1..] == v;
    assert Group(u, '{') == 1 by { assert Run(u, IsBackslash, 3) == 0; }
    assert Group(v, '{') == 0 by { assert Run(v, IsBackslash, 3) == 0; }
    var k := AtMost(3, s);
    assert Openers(v, k - 2) == 0;
    assert Openers(u, k - 1) == 1;
  }

  lemma {:induction false} EscapedWhole(s: string, t: string, j: nat, n: nat, tag: string, suffix: string)
    requires j + 2 <= |s| && t == s[j..] && Openers(s, AtMost(3, s)) == j + 2
    requires EscapedBody(t[2..]) == Some(Match(n, tag, suffix))
    ensures Escaped(s) == Some(Match(j + 2 + n, tag, suffix))
  {
    DropDrop(s, j, 2);
  }

  /** What the escaped pattern needs to know of a token and what follows it. */
  lemma {:induction false} TokenHead(tag: string, suffix: string, rest: string)
    requires IsLabel(tag) && IsSuffix(suffix) && Group(rest, '}') == 0
    ensures var t := Token(tag, suffix) + rest;
            && t[0] == '{' && t[1] == '{' && IsLabelChar(t[2])
            && EscapedBody(t[2..]) == Some(Match(|tag| + 9, tag, suffix))
  {
    var t := Token(tag, suffix) + rest;
    TokenIsAt(tag, suffix, rest);
    assert t[2] == t[2..][..|tag|][0];
    DropDrop(t, 2, |tag| + 9);
    EscapedBodyToken(t[2..], tag, suffix);
  }

  /** Up to three backslashes before a token belong to the escaped match. */
  lemma {:induction false} EscapedToken(s: string, t: string, j: nat, n: nat, tag: string, suffix: string)
    requires j + 3 <= |s| && t == s[j..] && t[0] == '{' && t[1] == '{' && IsLabelChar(t[2])
    requires EscapedBody(t[2..]) == Some(Match(n, tag, suffix))
    requires Group(s, '{') == j + 1
    ensures Escaped(s) == Some(Match(j + 2 + n, tag, suffix))
  {
    OpenersToken(s, t, j);
    EscapedWhole(s, t, j, n, tag, suffix);
  }
}
