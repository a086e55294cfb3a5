/**
 Placeholders as models spoil them: white space inside, another letter case, escaped braces,
 braces lost. What each of the three restore passes is for: the spoilt form is replaced by the
 original, and the text around it is left as it was.
 */
module Degraded {
  import opened Wrappers
  import opened Seqs
  import opened Placeholders
  import opened Restore

  // -------------------------------------------------------------------- spoilt forms

  /** Label and suffix in any letter case, and the white space around them. */
  datatype Core = Core(lab: string, suf: string, before: string, behind: string)

  ghost predicate GoodCore(f: Core) {
    && 1 <= |f.lab| <= 12 && All(IsWordChar, f.lab) && '_' !in f.lab && IsSuffixCi(f.suf)
    && All(IsWhite, f.before) && All(IsWhite, f.behind)
  }

  function Name(f: Core): string { f.lab + ("_" + f.suf) }

  /** The first character of s, if there is one, is not of the class. */
  predicate NotFirst(p: char -> bool, s: string) { s != "" ==> !p(s[0]) }

  /** s is label, underscore, suffix, white space and rest. */
  ghost predicate CoreAt(s: string, f: Core, rest: string) {
    var n := |f.lab|;
    && |f.suf| == 6 && |s| == n + 7 + |f.behind| + |rest|
    && s[..n] == f.lab && s[n] == '_' && s[n + 1..n + 7] == f.suf
    && s[n + 7..n + 7 + |f.behind|] == f.behind && s[n + 7 + |f.behind|..] == rest
  }

  /** No word character follows the suffix. */
  ghost predicate EndsWord(s: string, f: Core) { |s| > |f.lab| + 7 ==> !IsWordCharCi(s[|f.lab| + 7]) }

  // ------------------------------------------------------------ one way to take it apart

  lemma {:induction false} SuffixChar(c: char)
    requires IsHexCi(c) || IsConsonantCi(c)
    ensures c !in "_{}\\"
  {
  }

  lemma {:induction false} SuffixChars(suf: string)
    requires IsSuffixCi(suf)
    ensures forall c :: c in "_{}\\" ==> c !in suf
  {
    forall i | 0 <= i < |suf| ensures suf[i] !in "_{}\\" { SuffixChar(suf[i]); }
  }

  lemma {:induction false} SplitHere(s: string, f: Core, rest: string, word: char -> bool)
    requires CoreAt(s, f, rest) && IsSuffixCi(f.suf) && All(word, f.lab)
    ensures LabelSuffix(s, |f.lab|, word)
  {
  }

  lemma {:induction false} CoreChars(s: string, f: Core, rest: string, i: nat)
    requires CoreAt(s, f, rest) && IsSuffixCi(f.suf) && '_' !in f.lab && i < |f.lab| + 7
    ensures s[i] == '_' <==> i == |f.lab|
  {
    var l := |f.lab|;
    SuffixChars(f.suf);
    assert '_' !in f.suf;
    if i < l { assert s[i] == s[..l][i]; }
    if i > l { assert s[i] == s[l + 1..l + 7][i - l - 1]; }
  }

  /** Elsewhere label and suffix do not part, if the class ends with them or has no underscore. */
  lemma {:induction false} NoOtherSplit(s: string, f: Core, rest: string, n: nat, word: char -> bool)
    requires CoreAt(s, f, rest) && IsSuffixCi(f.suf) && '_' !in f.lab && n != |f.lab|
    requires !word('_') || (|s| > |f.lab| + 7 ==> !word(s[|f.lab| + 7]))
    ensures !LabelSuffix(s, n, word)
  {
    var l := |f.lab|;
    if n < l + 7 {
      CoreChars(s, f, rest, n);
    } else if n + 7 <= |s| {
      LongSplit(s, l, n, word);
    }
  }

  lemma {:induction false} LongSplit(s: string, l: nat, n: nat, word: char -> bool)
    requires l + 7 <= n && n + 7 <= |s| && s[l] == '_' && (!word('_') || !word(s[l + 7]))
    ensures !LabelSuffix(s, n, word)
  {
    assert s[..n][l] == s[l] && (n > l + 7 ==> s[..n][l + 7] == s[l + 7]);
  }

  lemma {:induction false} WhiteIs(c: char)
    ensures IsWhite(c) ==> !IsWordCharCi(c) && c != '{' && c != '}' && c != '\\'
    ensures IsWordCharCi(c) ==> c != '{' && c != '}' && c != '\\'
  {
  }

  /** White space runs up to the rest. */
  lemma {:induction false} WhiteRun(t: string, v: string, rest: string, max: nat)
    requires |v| <= |t| && t[..|v|] == v && t[|v|..] == rest && All(IsWhite, v) && |v| <= max && NotFirst(IsWhite, rest)
    ensures Run(t, IsWhite, max) == |v|
  {
    forall i | 0 <= i < |v| ensures IsWhite(t[i]) { assert t[i] == t[..|v|][i]; }
    if |v| < |t| { assert t[|v|] == rest[0]; }
    RunLength(t, IsWhite, max, |v|);
  }

  /** Where the white space behind the suffix ends. */
  lemma {:induction false} BehindRun(s: string, f: Core, rest: string)
    requires CoreAt(s, f, rest) && All(IsWhite, f.behind) && NotFirst(IsWhite, rest)
    ensures Run(s[|f.lab| + 7..], IsWhite, |s|) == |f.behind|
  {
    var n, v := |f.lab|, |f.behind|;
    var t := s[n + 7..];
    SliceParts(s, n + 7, n + 7, n + 7 + v);
    assert t[..v] == s[n + 7..n + 7 + v];
    DropDrop(s, n + 7, v);
    WhiteRun(t, f.behind, rest, |s|);
  }

  // --------------------------------------------------------------- the tries, turn by turn

  /** Label and suffix part behind n characters and nowhere else. */
  ghost predicate OnlySplitAt(s: string, n: nat, word: char -> bool) {
    n > 0 && LabelSuffix(s, n, word) && forall k: nat :: k != n ==> !LabelSuffix(s, k, word)
  }

  /** Behind the suffix and the white space that follows it there is the rest. */
  ghost predicate WhiteUpTo(s: string, n: nat, rest: string) {
    n + 7 <= |s| && n + 7 + Run(s[n + 7..], IsWhite, |s|) <= |s| && s[n + 7 + Run(s[n + 7..], IsWhite, |s|)..] == rest
  }

  lemma {:induction false} CoreSplits(s: string, f: Core, rest: string, word: char -> bool)
    requires CoreAt(s, f, rest) && GoodCore(f) && All(word, f.lab)
    requires |s| > |f.lab| + 7 ==> !word(s[|f.lab| + 7])
    ensures OnlySplitAt(s, |f.lab|, word)
  {
    SplitHere(s, f, rest, word);
    forall k: nat | k != |f.lab| ensures !LabelSuffix(s, k, word) { NoOtherSplit(s, f, rest, k, word); }
  }

  predicate TwoClosers(rest: string) { |rest| >= 2 && rest[0] == '}' && rest[1] == '}' }

  /** The braced match, if two braces follow the white space. */
  function BracedMatch(q: nat, rest: string, lab: string, suf: string): Option<Match> {
    if TwoClosers(rest) then Some(Match(q + 2, lab, suf)) else None
  }

  lemma {:induction false} BracedHit(s: string, n: nat, rest: string)
    requires n > 0 && LabelSuffix(s, n, IsWordChar) && WhiteUpTo(s, n, rest) && (!TwoClosers(rest) ==> BracedTry(s, n - 1) == None)
    ensures BracedTry(s, n) == BracedMatch(|s| - |rest|, rest, s[..n], s[n + 1..n + 7])
  {
  }

  lemma {:induction false} BracedTries(s: string, n: nat, rest: string, m: nat)
    requires OnlySplitAt(s, n, IsWordChar) && WhiteUpTo(s, n, rest)
    ensures BracedTry(s, m) == if m < n then None else BracedMatch(|s| - |rest|, rest, s[..n], s[n + 1..n + 7])
  {
    if m > 0 { BracedTries(s, n, rest, m - 1); }
    if m == n { BracedHit(s, n, rest); }
  }

  lemma {:induction false} LooseTries(s: string, n: nat, rest: string, m: nat)
    requires OnlySplitAt(s, n, IsWordChar) && WhiteUpTo(s, n, rest) && m >= n
    ensures LooseTry(s, m) == Some(LooseMatch(|s| - |rest| + Run(rest, IsCloser, 2), s[..n + 7], false))
  {
    if m > n { LooseTries(s, n, rest, m - 1); }
  }

  /** The escaped match, if a closing group follows the white space. */
  function EscapedMatch(q: nat, e: nat, lab: string, suf: string): Option<Match> {
    if e > 0 then Some(Match(q + e, lab, suf)) else None
  }

  lemma {:induction false} EscapedHit(s: string, n: nat, rest: string, e: nat)
    requires n > 0 && LabelSuffix(s, n, IsWordCharCi) && WhiteUpTo(s, n, rest) && (e == 0 ==> EscapedTry(s, n - 1) == None)
    requires e == Closers(rest, AtMost(3, rest))
    ensures EscapedTry(s, n) == EscapedMatch(|s| - |rest|, e, s[..n], s[n + 1..n + 7])
  {
  }

  lemma {:induction false} EscapedSkips(s: string, n: nat, m: nat)
    requires OnlySplitAt(s, n, IsWordCharCi)
    ensures EscapedTry(s, m) == if m < n then None else EscapedTry(s, n)
  {
    if m > 0 && m != n { EscapedSkips(s, n, m - 1); }
  }

  lemma {:induction false} EscapedTries(s: string, n: nat, rest: string, e: nat, m: nat)
    requires OnlySplitAt(s, n, IsWordCharCi) && WhiteUpTo(s, n, rest) && e == Closers(rest, AtMost(3, rest)) && m >= n
    ensures EscapedTry(s, m) == EscapedMatch(|s| - |rest|, e, s[..n], s[n + 1..n + 7])
  {
    EscapedSkips(s, n, n - 1);
    EscapedHit(s, n, rest, e);
    EscapedSkips(s, n, m);
  }

  lemma {:induction false} NameAt(s: string, f: Core, rest: string)
    requires CoreAt(s, f, rest)
    ensures s[..|f.lab| + 7] == Name(f)
  {
    var n := |f.lab|;
    assert s[..n + 7] == s[..n] + ([s[n]] + s[n + 1..n + 7]);
  }

  lemma {:induction false} BareTries(s: string, f: Core, rest: string, m: nat)
    requires CoreAt(s, f, rest) && IsLabel(f.lab) && '_' !in f.lab && IsSuffixCi(f.suf) && m >= |f.lab|
    ensures BareTry(s, m) == Some(LooseMatch(|f.lab| + 7, Name(f), true))
  {
    if m == |f.lab| {
      SplitHere(s, f, rest, IsLabelChar);
      NameAt(s, f, rest);
    } else {
      NoOtherSplit(s, f, rest, m, IsLabelChar);
      BareTries(s, f, rest, m - 1);
    }
  }

  // ------------------------------------------------------------ the matchers on a form

  /** Behind k characters of s there is v, and then c. */
  ghost predicate Behind(s: string, k: nat, v: string, c: string) {
    k + |v| <= |s| && s[k..k + |v|] == v && s[k + |v|..] == c
  }

  /** What makes the core end where it does: no word character, no white space. */
  ghost predicate Clean(f: Core, rest: string) {
    GoodCore(f) && NotFirst(IsWhite, rest) && (f.behind == "" ==> NotFirst(IsWordCharCi, rest))
  }

  lemma {:induction false} CleanEnds(s: string, f: Core, rest: string)
    requires CoreAt(s, f, rest) && Clean(f, rest)
    ensures EndsWord(s, f)
  {
    var n := |f.lab|;
    if |s| > n + 7 {
      if f.behind != "" { assert s[n + 7] == s[n + 7..n + 7 + |f.behind|][0]; WhiteIs(f.behind[0]); }
      else { assert s[n + 7] == rest[0]; }
    }
  }

  lemma {:induction false} CoreHead(c: string, f: Core, rest: string)
    requires CoreAt(c, f, rest) && GoodCore(f)
    ensures c != "" && IsWordChar(c[0]) && NotFirst(IsWhite, c) && |f.lab| <= AtMost(12, c)
  {
    assert c[0] == c[..|f.lab|][0] == f.lab[0];
    WhiteIs(f.lab[0]);
  }

  /** White space, and behind it the first character of a label. */
  ghost predicate Heads(v: string, c: string) { All(IsWhite, v) && c != "" && IsWordChar(c[0]) }

  /** White space in front of the label runs up to it. */
  lemma {:induction false} BeforeRun(s: string, k: nat, v: string, c: string)
    requires Behind(s, k, v, c) && Heads(v, c)
    ensures Run(s[k..], IsWhite, |s|) == |v|
    ensures k < |s| && s[k] != '{' && s[k] != '\\' && s[k] != '}'
  {
    var t := s[k..];
    assert t[..|v|] == s[k..k + |v|];
    DropDrop(s, k, |v|);
    WhiteIs(c[0]);
    WhiteRun(t, v, c, |s|);
    if v != "" { assert s[k] == s[k..k + |v|][0]; WhiteIs(s[k]); } else { assert s[k] == c[0]; }
  }

  /** What the tries need to know of a core. */
  ghost predicate Parts(c: string, f: Core, rest: string) {
    var n := |f.lab|;
    && n <= AtMost(12, c) && OnlySplitAt(c, n, IsWordChar) && OnlySplitAt(c, n, IsWordCharCi) && WhiteUpTo(c, n, rest)
    && c[..n] == f.lab && c[n + 1..n + 7] == f.suf && c[..n + 7] == Name(f)
  }

  lemma {:induction false} CoreParts(c: string, f: Core, rest: string)
    requires CoreAt(c, f, rest) && Clean(f, rest)
    ensures Parts(c, f, rest)
  {
    CoreHead(c, f, rest);
    CleanEnds(c, f, rest);
    CoreSplits(c, f, rest, IsWordChar);
    CoreSplits(c, f, rest, IsWordCharCi);
    BehindRun(c, f, rest);
    NameAt(c, f, rest);
  }

  /** The three tries on a core, told by what they find and where. */
  lemma {:induction false} BracedCore(c: string, f: Core, rest: string, q: nat)
    requires Parts(c, f, rest) && q == |c| - |rest|
    ensures BracedTry(c, AtMost(12, c)) == BracedMatch(q, rest, f.lab, f.suf)
  {
    BracedTries(c, |f.lab|, rest, AtMost(12, c));
  }

  lemma {:induction false} LooseCore(c: string, f: Core, rest: string, q: nat, e: nat)
    requires Parts(c, f, rest) && q == |c| - |rest| && e == Run(rest, IsCloser, 2)
    ensures LooseTry(c, AtMost(12, c)) == Some(LooseMatch(q + e, Name(f), false))
  {
    LooseTries(c, |f.lab|, rest, AtMost(12, c));
  }

  lemma {:induction false} EscapedCore(c: string, f: Core, rest: string, q: nat, e: nat)
    requires Parts(c, f, rest) && q == |c| - |rest| && e == Closers(rest, AtMost(3, rest))
    ensures EscapedTry(c, AtMost(12, c)) == EscapedMatch(q, e, f.lab, f.suf)
  {
    EscapedTries(c, |f.lab|, rest, e, AtMost(12, c));
  }

  lemma {:induction false} BracedOn(s: string, v: string, c: string, m: Option<Match>)
    requires |s| >= 2 && s[0] == '{' && s[1] == '{' && Behind(s, 2, v, c) && Heads(v, c)
    requires BracedTry(c, AtMost(12, c)) == m
    ensures Braced(s) == Shift(2 + |v|, m)
  {
    BeforeRun(s, 2, v, c);
  }

  lemma {:induction false} LooseBracedOn(s: string, k: nat, v: string, c: string, m: LooseMatch)
    requires Behind(s, k, v, c) && Heads(v, c) && LooseTry(c, AtMost(12, c)) == Some(m)
    ensures LooseBraced(s, k) == Some(LooseMatch(k + |v| + m.len, m.body, false))
  {
    BeforeRun(s, k, v, c);
  }

  /** One or two braces in front of the core. */
  ghost predicate BracesAt(s: string, k: nat) { 1 <= k <= 2 && k <= |s| && s[0] == '{' && (k == 2 ==> s[1] == '{') }

  lemma {:induction false} LooseOn(s: string, k: nat, v: string, c: string, m: LooseMatch)
    requires BracesAt(s, k) && Behind(s, k, v, c) && Heads(v, c) && LooseTry(c, AtMost(12, c)) == Some(m)
    ensures Loose(s) == Some(LooseMatch(k + |v| + m.len, m.body, false))
  {
    LooseBracedOn(s, k, v, c, m);
    BeforeRun(s, k, v, c);
  }

  lemma {:induction false} BareOn(s: string, f: Core, rest: string)
    requires CoreAt(s, f, rest) && IsLabel(f.lab) && '_' !in f.lab && IsSuffixCi(f.suf)
    ensures Loose(s) == Some(LooseMatch(|f.lab| + 7, Name(f), true)) && s[0] != '{'
  {
    assert s[0] == s[..|f.lab|][0];
    BareTries(s, f, rest, AtMost(12, s));
  }

  lemma {:induction false} EscapedBodyOn(s: string, k: nat, v: string, c: string, m: Option<Match>)
    requires Behind(s, k, v, c) && Heads(v, c) && k <= 3 && forall i :: 0 <= i < k ==> s[i] == '\\'
    requires EscapedTry(c, AtMost(12, c)) == m
    ensures EscapedBody(s) == Shift(k + |v|, m)
  {
    BeforeRun(s, k, v, c);
    RunLength(s, IsBackslash, 3, k);
  }

  // ------------------------------------------------------- a form and what is around it

  function Slashes(n: nat): string { seq(n, _ => '\\') }

  /** Braces, each with so many backslashes in front of it. */
  function Groups(counts: seq<nat>, brace: char): string {
    if counts == [] then [] else Slashes(counts[0]) + ([brace] + Groups(counts[1..], brace))
  }

  ghost predicate Few(counts: seq<nat>) { |counts| <= 3 && forall i :: 0 <= i < |counts| ==> counts[i] <= 3 }

  /** A placeholder with its braces, as the three patterns read it. */
  datatype Form = Form(opens: seq<nat>, slashes: nat, core: Core, closes: seq<nat>)

  ghost predicate GoodForm(f: Form) { GoodCore(f.core) && Few(f.opens) && Few(f.closes) && f.slashes <= 3 }

  function Ending(f: Form, b: string): string { Groups(f.closes, '}') + b }
  function CoreText(f: Form, b: string): string { Name(f.core) + (f.core.behind + Ending(f, b)) }
  function Inner(f: Form, b: string): string { Slashes(f.slashes) + (f.core.before + CoreText(f, b)) }
  function Text(f: Form, b: string): string { Groups(f.opens, '{') + Inner(f, b) }

  /** The form as it stands in the text. */
  function Shown(f: Form): string { Text(f, "") }

  lemma {:induction false} ShownText(f: Form, b: string)
    ensures Shown(f) + b == Text(f, b) && |Text(f, b)| == |Shown(f)| + |b|
  {
    var e, c, i := Ending(f, ""), CoreText(f, ""), Inner(f, "");
    Assoc(Groups(f.closes, '}'), "", b);
    assert e + b == Ending(f, b);
    Assoc(f.core.behind, e, b);
    Assoc(Name(f.core), f.core.behind + e, b);
    assert c + b == CoreText(f, b);
    Assoc(f.core.before, c, b);
    Assoc(Slashes(f.slashes), f.core.before + c, b);
    assert i + b == Inner(f, b);
    Assoc(Groups(f.opens, '{'), i, b);
  }

  lemma {:induction false} NameParts(g: Core, t: string)
    requires |g.suf| == 6
    ensures var s := Name(g) + t; var n := |g.lab|;
            s[..n] == g.lab && s[n] == '_' && s[n + 1..n + 7] == g.suf && s[n + 7..] == t && |s| == n + 7 + |t|
  {
    var s, n := Name(g) + t, |g.lab|;
    assert s == g.lab + ("_" + (g.suf + t));
    assert s[n + 1..] == g.suf + t;
    assert s[n + 1..n + 7] == s[n + 1..][..6];
  }

  lemma {:induction false} CoreTextAt(f: Form, b: string)
    requires |f.core.suf| == 6
    ensures CoreAt(CoreText(f, b), f.core, Ending(f, b))
  {
    var g, e := f.core, Ending(f, b);
    var n, s := |g.lab| + 7, CoreText(f, b);
    NameParts(g, g.behind + e);
    Seam(g.behind, e);
    DropDrop(s, n, |g.behind|);
    TakeOfDrop(s, n, |g.behind|);
  }

  lemma {:induction false} InnerAt(f: Form, b: string)
    ensures Behind(Inner(f, b), f.slashes, f.core.before, CoreText(f, b))
    ensures forall i :: 0 <= i < f.slashes ==> Inner(f, b)[i] == '\\'
  {
    var v, c := f.core.before, CoreText(f, b);
    Seam(Slashes(f.slashes), v + c);
    Seam(v, c);
    DropDrop(Inner(f, b), f.slashes, |v|);
    assert Inner(f, b)[f.slashes..f.slashes + |v|] == (v + c)[..|v|];
  }

  /** No white space follows an unclosed form and no word character a form without white space at its end. */
  ghost predicate Ends(f: Form, b: string) {
    f.closes == [] ==> NotFirst(IsWhite, b) && (f.core.behind == "" ==> NotFirst(IsWordCharCi, b))
  }

  /** What follows the form does not lengthen the escaped match. */
  ghost predicate Stops(f: Form, b: string) { Ends(f, b) && (|f.closes| == 3 || Group(b, '}') == 0) }

  lemma {:induction false} GroupHead(n: nat, brace: char, t: string)
    requires n <= 3 && brace != '\\'
    ensures var s := Slashes(n) + ([brace] + t); Group(s, brace) == n + 1 && s[n + 1..] == t
  {
    var s := Slashes(n) + ([brace] + t);
    RunLength(s, IsBackslash, 3, n);
    Seam(Slashes(n), [brace] + t);
    DropDrop(s, n, 1);
  }

  lemma {:induction false} GroupsHead(counts: seq<nat>, brace: char, t: string)
    requires Few(counts) && counts != [] && brace != '\\'
    ensures var s := Groups(counts, brace) + t;
            && Group(s, brace) == counts[0] + 1 && s[counts[0] + 1..] == Groups(counts[1..], brace) + t
            && s[0] == (if counts[0] == 0 then brace else '\\')
  {
    var u := Groups(counts[1..], brace);
    Assoc([brace], u, t);
    Assoc(Slashes(counts[0]), [brace] + u, t);
    GroupHead(counts[0], brace, u + t);
  }

  lemma {:induction false} ClosersOn(counts: seq<nat>, b: string, k: nat)
    requires Few(counts) && |counts| <= k && (|counts| == k || Group(b, '}') == 0)
    ensures Closers(Groups(counts, '}') + b, k) == |Groups(counts, '}')|
  {
    if counts == [] {
      Whole(b);
    } else {
      GroupsHead(counts, '}', b);
      ClosersOn(counts[1..], b, k - 1);
    }
  }

  lemma {:induction false} OpenersOn(counts: seq<nat>, t: string, k: nat)
    requires Few(counts) && |counts| <= k && (|counts| == k || Group(t, '{') == 0)
    ensures Openers(Groups(counts, '{') + t, k) == |Groups(counts, '{')|
  {
    if counts == [] {
      Whole(t);
    } else {
      GroupsHead(counts, '{', t);
      OpenersOn(counts[1..], t, k - 1);
    }
  }

  lemma {:induction false} GroupsSize(counts: seq<nat>, brace: char)
    ensures |Groups(counts, brace)| >= |counts| && (counts != [] ==> |Groups(counts, brace)| > 0)
  {
    if counts != [] { GroupsSize(counts[1..], brace); }
  }

  /** As many closing characters as the form has. */
  lemma {:induction false} EndingClosers(f: Form, b: string)
    requires GoodForm(f) && Stops(f, b)
    ensures Closers(Ending(f, b), AtMost(3, Ending(f, b))) == |Groups(f.closes, '}')|
  {
    GroupsSize(f.closes, '}');
    ClosersOn(f.closes, b, AtMost(3, Ending(f, b)));
  }

  lemma {:induction false} FormClean(f: Form, b: string)
    requires GoodForm(f) && Ends(f, b)
    ensures Clean(f.core, Ending(f, b))
  {
    if f.closes == [] { Whole(b); } else { GroupsHead(f.closes, '}', b); }
  }

  lemma {:induction false} FormParts(f: Form, b: string)
    requires GoodForm(f) && Ends(f, b)
    ensures Parts(CoreText(f, b), f.core, Ending(f, b))
  {
    CoreTextAt(f, b);
    FormClean(f, b);
    CoreParts(CoreText(f, b), f.core, Ending(f, b));
  }

  lemma {:induction false} InnerHeads(f: Form, b: string)
    requires GoodForm(f)
    ensures Heads(f.core.before, CoreText(f, b))
    ensures f.slashes < |Inner(f, b)| && Inner(f, b)[f.slashes] !in "{}\\"
    ensures Group(Inner(f, b), '{') == 0
  {
    CoreTextAt(f, b);
    CoreHead(CoreText(f, b), f.core, Ending(f, b));
    InnerAt(f, b);
    BeforeRun(Inner(f, b), f.slashes, f.core.before, CoreText(f, b));
    NoGroup(Inner(f, b), f.slashes);
  }

  lemma {:induction false} NoGroup(s: string, n: nat)
    requires n <= 3 && n < |s| && s[n] !in "{\\" && forall i :: 0 <= i < n ==> s[i] == '\\'
    ensures Group(s, '{') == 0
  {
    RunLength(s, IsBackslash, 3, n);
  }

  // --------------------------------------------------------------- the patterns on a form

  /** Where the white space behind the suffix ends, counted from the start of the form. */
  function CoreEnd(f: Form): nat {
    |Groups(f.opens, '{')| + f.slashes + |f.core.before| + |Name(f.core)| + |f.core.behind|
  }

  lemma {:induction false} Sizes(f: Form, b: string)
    ensures var e := |Groups(f.closes, '}')|; |Ending(f, b)| == e + |b| && |Text(f, b)| == CoreEnd(f) + e + |b| && |Shown(f)| == CoreEnd(f) + e
    ensures |CoreText(f, b)| == |Name(f.core)| + |f.core.behind| + |Ending(f, b)|
  {
  }

  lemma {:induction false} CoreEscaped(f: Form, b: string, q: nat, e: nat)
    requires GoodForm(f) && Stops(f, b) && q == |Name(f.core)| + |f.core.behind| && e == |Groups(f.closes, '}')|
    ensures EscapedTry(CoreText(f, b), AtMost(12, CoreText(f, b))) == EscapedMatch(q, e, f.core.lab, f.core.suf)
  {
    FormParts(f, b);
    EndingClosers(f, b);
    Sizes(f, b);
    EscapedCore(CoreText(f, b), f.core, Ending(f, b), q, e);
  }

  lemma {:induction false} InnerEscaped(f: Form, b: string, p: nat, m: Option<Match>)
    requires GoodForm(f) && EscapedTry(CoreText(f, b), AtMost(12, CoreText(f, b))) == m && p == f.slashes + |f.core.before|
    ensures EscapedBody(Inner(f, b)) == Shift(p, m)
  {
    InnerAt(f, b);
    InnerHeads(f, b);
    EscapedBodyOn(Inner(f, b), f.slashes, f.core.before, CoreText(f, b), m);
  }

  lemma {:induction false} TextOpeners(f: Form, b: string)
    requires GoodForm(f)
    ensures Openers(Text(f, b), 3) == |Groups(f.opens, '{')| && |Text(f, b)| >= 3
    ensures Text(f, b)[|Groups(f.opens, '{')|..] == Inner(f, b)
  {
    var t := Inner(f, b);
    InnerHeads(f, b);
    OpenersOn(f.opens, t, 3);
    Seam(Groups(f.opens, '{'), t);
    Sizes(f, b);
  }

  lemma {:induction false} EscapedBy(s: string, o: nat, t: string, p: nat, q: nat, e: nat, f: Core, end: nat)
    requires |s| >= 3 && Openers(s, 3) == o > 0 && o <= |s| && s[o..] == t
    requires EscapedBody(t) == Shift(p, EscapedMatch(q, e, f.lab, f.suf)) && end == o + (p + q)
    ensures Escaped(s) == EscapedMatch(end, e, f.lab, f.suf)
  {
  }

  lemma {:induction false} FormEscapedBody(f: Form, b: string, p: nat, q: nat, e: nat)
    requires GoodForm(f) && Stops(f, b)
    requires p == f.slashes + |f.core.before| && q == |Name(f.core)| + |f.core.behind| && e == |Groups(f.closes, '}')|
    ensures EscapedBody(Inner(f, b)) == Shift(p, EscapedMatch(q, e, f.core.lab, f.core.suf))
  {
    CoreEscaped(f, b, q, e);
    InnerEscaped(f, b, p, EscapedMatch(q, e, f.core.lab, f.core.suf));
  }

  /** The escaped pattern takes the whole form, if any closing brace is left of it. */
  lemma {:induction false} EscapedOn(f: Form, b: string)
    requires GoodForm(f) && Stops(f, b) && f.opens != []
    ensures Escaped(Text(f, b)) == EscapedMatch(CoreEnd(f), |Groups(f.closes, '}')|, f.core.lab, f.core.suf)
  {
    var g := f.core;
    var q, e, p, o := |Name(g)| + |g.behind|, |Groups(f.closes, '}')|, f.slashes + |g.before|, |Groups(f.opens, '{')|;
    FormEscapedBody(f, b, p, q, e);
    TextOpeners(f, b);
    GroupsSize(f.opens, '{');
    EscapedBy(Text(f, b), o, Inner(f, b), p, q, e, g, CoreEnd(f));
  }

  // -------------------------------------------------------- forms without backslashes

  predicate Zeros(counts: seq<nat>) { forall i :: 0 <= i < |counts| ==> counts[i] == 0 }

  lemma {:induction false} ZeroGroups(counts: seq<nat>, brace: char)
    requires Zeros(counts)
    ensures |Groups(counts, brace)| == |counts| && forall i :: 0 <= i < |counts| ==> Groups(counts, brace)[i] == brace
  {
    if counts != [] { ZeroGroups(counts[1..], brace); }
  }

  /** One or two opening braces and at most two closing ones, none of them escaped. */
  ghost predicate Unescaped(f: Form) {
    1 <= |f.opens| <= 2 && |f.closes| <= 2 && Zeros(f.opens) && Zeros(f.closes) && f.slashes == 0
  }

  lemma {:induction false} UnescapedAt(f: Form, b: string)
    requires Unescaped(f)
    ensures BracesAt(Text(f, b), |f.opens|) && Behind(Text(f, b), |f.opens|, f.core.before, CoreText(f, b))
    ensures CoreEnd(f) == |f.opens| + |f.core.before| + |Name(f.core)| + |f.core.behind|
  {
    var o, t := Groups(f.opens, '{'), Inner(f, b);
    ZeroGroups(f.opens, '{');
    InnerAt(f, b);
    Seam(o, t);
    SliceBehind(o, t, |o|, |o| + |f.core.before|);
    DropDrop(Text(f, b), |o|, |f.core.before|);
  }

  lemma {:induction false} EndingRun(f: Form, b: string)
    requires Zeros(f.closes) && |f.closes| <= 2 && (|f.closes| == 2 || NotFirst(IsCloser, b))
    ensures Run(Ending(f, b), IsCloser, 2) == |f.closes|
  {
    ZeroGroups(f.closes, '}');
    RunLength(Ending(f, b), IsCloser, 2, |f.closes|);
  }

  lemma {:induction false} CoreLoose(f: Form, b: string, q: nat)
    requires GoodForm(f) && Ends(f, b) && Zeros(f.closes) && |f.closes| <= 2 && (|f.closes| == 2 || NotFirst(IsCloser, b))
    requires q == |Name(f.core)| + |f.core.behind|
    ensures LooseTry(CoreText(f, b), AtMost(12, CoreText(f, b))) == Some(LooseMatch(q + |f.closes|, Name(f.core), false))
  {
    FormParts(f, b);
    Sizes(f, b);
    EndingRun(f, b);
    LooseCore(CoreText(f, b), f.core, Ending(f, b), q, |f.closes|);
  }

  lemma {:induction false} LooseWhole(s: string, k: nat, v: string, c: string, n: nat, body: string, end: nat)
    requires BracesAt(s, k) && Behind(s, k, v, c) && Heads(v, c) && end == k + |v| + n
    requires LooseTry(c, AtMost(12, c)) == Some(LooseMatch(n, body, false))
    ensures Loose(s) == Some(LooseMatch(end, body, false))
  {
    LooseOn(s, k, v, c, LooseMatch(n, body, false));
  }

  /** The loose pattern takes the whole form and the name in it. */
  lemma {:induction false} LooseFormOn(f: Form, b: string)
    requires GoodForm(f) && Unescaped(f) && Ends(f, b) && (|f.closes| == 2 || NotFirst(IsCloser, b))
    ensures Loose(Text(f, b)) == Some(LooseMatch(|Shown(f)|, Name(f.core), false))
  {
    var q := |Name(f.core)| + |f.core.behind|;
    CoreLoose(f, b, q);
    UnescapedAt(f, b);
    InnerHeads(f, b);
    Sizes(f, b);
    ZeroGroups(f.closes, '}');
    LooseWhole(Text(f, b), |f.opens|, f.core.before, CoreText(f, b), q + |f.closes|, Name(f.core), |Shown(f)|);
  }

  lemma {:induction false} CoreBraced(f: Form, b: string, q: nat)
    requires GoodForm(f) && Ends(f, b) && q == |Name(f.core)| + |f.core.behind|
    ensures BracedTry(CoreText(f, b), AtMost(12, CoreText(f, b))) == BracedMatch(q, Ending(f, b), f.core.lab, f.core.suf)
  {
    FormParts(f, b);
    Sizes(f, b);
    BracedCore(CoreText(f, b), f.core, Ending(f, b), q);
  }

  lemma {:induction false} BracedWhole(s: string, v: string, c: string, q: nat, rest: string, f: Core, end: nat)
    requires |s| >= 2 && s[0] == '{' && s[1] == '{' && Behind(s, 2, v, c) && Heads(v, c) && TwoClosers(rest)
    requires BracedTry(c, AtMost(12, c)) == BracedMatch(q, rest, f.lab, f.suf) && end == 2 + |v| + q + 2
    ensures Braced(s) == Some(Match(end, f.lab, f.suf))
  {
    BracedOn(s, v, c, Some(Match(q + 2, f.lab, f.suf)));
  }

  /** The double-brace pattern takes the whole form. */
  lemma {:induction false} BracedFormOn(f: Form, b: string)
    requires GoodForm(f) && Unescaped(f) && |f.opens| == 2 && |f.closes| == 2
    ensures Braced(Text(f, b)) == Some(Match(|Shown(f)|, f.core.lab, f.core.suf))
  {
    var q := |Name(f.core)| + |f.core.behind|;
    CoreBraced(f, b, q);
    UnescapedAt(f, b);
    InnerHeads(f, b);
    Sizes(f, b);
    ZeroGroups(f.closes, '}');
    BracedWhole(Text(f, b), f.core.before, CoreText(f, b), q, Ending(f, b), f.core, |Shown(f)|);
  }

  // ------------------------------------------------ where the double-brace pattern is blind

  /** Two plain braces, nothing but white space, the core, and again two plain braces. */
  ghost predicate PlainBraces(f: Form, b: string) {
    |f.opens| >= 2 && f.opens[|f.opens| - 1] == 0 && f.slashes == 0 && TwoClosers(Ending(f, b))
  }

  lemma {:induction false} NoBracedTry(s: string, n: nat)
    requires s == [] || !IsWordChar(s[0])
    ensures BracedTry(s, n) == None
  {
    if n > 0 {
      LabelSuffixHead(s, n, IsWordChar);
      NoBracedTry(s, n - 1);
    }
  }

  lemma {:induction false} BracedBlocked(s: string)
    requires |s| >= 3 && !IsWhite(s[2]) && !IsWordChar(s[2])
    ensures Braced(s) == None
  {
    assert Run(s[2..], IsWhite, |s|) == 0;
    NoBracedTry(s[2..], AtMost(12, s[2..]));
  }

  function Less(f: Form): Form { Form(if f.opens == [] then [] else f.opens[1..], f.slashes, f.core, f.closes) }

  lemma {:induction false} GroupChars(n: nat, t: string)
    ensures var s := Slashes(n) + (['{'] + t);
            s[n] == '{' && s[n + 1..] == t && |s| == n + 1 + |t| && s[0] == (if n == 0 then '{' else '\\')
    ensures forall i :: 0 <= i < n ==> (Slashes(n) + (['{'] + t))[i] == '\\'
  {
    Seam(Slashes(n), ['{'] + t);
    DropDrop(Slashes(n) + (['{'] + t), n, 1);
  }

  lemma {:induction false} TextUnfolds(f: Form, b: string)
    requires f.opens != []
    ensures Text(f, b) == Slashes(f.opens[0]) + (['{'] + Text(Less(f), b))
  {
    var n, u, t := f.opens[0], Groups(f.opens[1..], '{'), Inner(f, b);
    Assoc(['{'], u, t);
    Assoc(Slashes(n), ['{'] + u, t);
  }

  lemma {:induction false} TextHead(f: Form, b: string)
    requires GoodForm(f) && f.opens != []
    ensures var n := f.opens[0]; var s := Text(f, b);
            && n < |s| && s[n] == '{' && s[n + 1..] == Text(Less(f), b) && s[0] == (if n == 0 then '{' else '\\')
            && forall i :: 0 <= i < n ==> s[i] == '\\'
    ensures GoodForm(Less(f)) && |Shown(f)| == f.opens[0] + 1 + |Shown(Less(f))|
  {
    TextUnfolds(f, b);
    TextUnfolds(f, "");
    GroupChars(f.opens[0], Text(Less(f), b));
  }

  lemma {:induction false} TextFirst(f: Form, b: string)
    requires GoodForm(f)
    ensures Text(f, b) != "" && ((f.opens == [] && f.slashes == 0) || Text(f, b)[0] in "{\\")
    ensures f.opens == [] ==> Text(f, b) == Inner(f, b) && Text(f, b)[0] != '{'
  {
    if f.opens == [] { InnerHeads(f, b); InnerAt(f, b); Whole(Inner(f, b)); } else { TextHead(f, b); }
  }

  lemma {:induction false} BehindDrop(s: string, k: nat, v: string, c: string)
    requires k <= |s| && Behind(s[k..], 0, v, c)
    ensures Behind(s, k, v, c)
  {
    DropDrop(s, k, |v|);
    TakeOfDrop(s, k, |v|);
  }

  lemma {:induction false} CoreNotBraced(f: Form, b: string)
    requires GoodForm(f) && Ends(f, b) && !TwoClosers(Ending(f, b))
    ensures BracedTry(CoreText(f, b), AtMost(12, CoreText(f, b))) == None
  {
    CoreBraced(f, b, |Name(f.core)| + |f.core.behind|);
  }

  lemma {:induction false} NoTwoClosers(s: string, f: Form, b: string)
    requires GoodForm(f) && Ends(f, b) && f.opens == [] && f.slashes == 0 && !TwoClosers(Ending(f, b))
    requires |s| >= 2 && s[2..] == Text(f, b)
    ensures Braced(s) == None
  {
    var v, c := f.core.before, CoreText(f, b);
    CoreNotBraced(f, b);
    InnerAt(f, b);
    InnerHeads(f, b);
    Whole(Inner(f, b));
    BehindDrop(s, 2, v, c);
    if s[0] == '{' && s[1] == '{' { BracedOn(s, v, c, None); }
  }

  lemma {:induction false} NoBracedNext(f: Form, b: string, s: string)
    requires GoodForm(f) && Ends(f, b) && (f.opens == [] ==> f.slashes > 0 || !TwoClosers(Ending(f, b)))
    requires |s| >= 2 && s[2..] == Text(f, b)
    ensures Braced(s) == None
  {
    TextFirst(f, b);
    if f.opens == [] && f.slashes == 0 {
      NoTwoClosers(s, f, b);
    } else {
      assert s[2] == Text(f, b)[0];
      BracedBlocked(s);
    }
  }

  lemma {:induction false} NoBracedHead(f: Form, b: string, s: string)
    requires GoodForm(f) && Ends(f, b) && f.opens != [] && !PlainBraces(f, b) && s == Text(f, b)[f.opens[0]..]
    ensures Braced(s) == None
  {
    var g := Less(f);
    TextHead(f, b);
    assert s[1..] == Text(g, b);
    TextFirst(g, b);
    if g.opens != [] && g.opens[0] == 0 {
      TextHead(g, b);
      DropDrop(s, 1, 1);
      NoBracedNext(Less(g), b, s);
    }
  }

  lemma {:induction false} Lacks(c: char, v: string, t: string)
    requires c !in v && c !in t
    ensures c !in v + t
  {
  }

  lemma {:induction false} NameLacks(g: Core, c: char)
    requires GoodCore(g) && c in "{}\\"
    ensures c !in Name(g)
  {
    SuffixChars(g.suf);
    forall i | 0 <= i < |g.lab| ensures g.lab[i] != c { WhiteIs(g.lab[i]); }
    Lacks(c, "_", g.suf);
    Lacks(c, g.lab, "_" + g.suf);
  }

  lemma {:induction false} WhiteLacks(v: string, c: char)
    requires All(IsWhite, v) && c in "{}\\"
    ensures c !in v
  {
    forall i | 0 <= i < |v| ensures v[i] != c { WhiteIs(v[i]); }
  }

  lemma {:induction false} ClosingLacks(counts: seq<nat>)
    ensures '{' !in Groups(counts, '}')
  {
    if counts != [] {
      ClosingLacks(counts[1..]);
      Lacks('{', "}", Groups(counts[1..], '}'));
      Lacks('{', Slashes(counts[0]), "}" + Groups(counts[1..], '}'));
    }
  }

  /** Behind its opening braces a form has none, and without closing ones no other brace and no backslash but those before the label. */
  lemma {:induction false} InnerLacks(f: Form, c: char)
    requires GoodForm(f) && (c == '{' || (f.closes == [] && (c == '}' || (c == '\\' && f.slashes == 0))))
    ensures c !in Inner(f, "")
  {
    var g := f.core;
    ClosingLacks(f.closes);
    Whole(Groups(f.closes, '}'));
    WhiteLacks(g.behind, c);
    WhiteLacks(g.before, c);
    NameLacks(g, c);
    Lacks(c, g.behind, Ending(f, ""));
    Lacks(c, Name(g), g.behind + Ending(f, ""));
    Lacks(c, g.before, CoreText(f, ""));
    Lacks(c, Slashes(f.slashes), g.before + CoreText(f, ""));
  }

  lemma {:induction false} InnerNotBraced(f: Form, b: string, j: nat)
    requires GoodForm(f) && f.opens == [] && j < |Shown(f)|
    ensures j < |Text(f, b)| && Text(f, b)[j] != '{'
  {
    ShownText(f, b);
    InnerLacks(f, '{');
    Whole(Inner(f, ""));
    assert Text(f, b)[j] == Shown(f)[j];
  }

  lemma {:induction false} NoBracedHere(s: string, j: nat, t: string)
    requires j < |s| && s[j] != '{' && t == s[j..]
    ensures Braced(t) == None
  {
  }

  lemma {:induction false} Later(s: string, n: nat, j: nat, u: string, t: string)
    requires n < j <= |s| && s[n + 1..] == u && t == s[j..]
    ensures j - n - 1 <= |u| && t == u[j - n - 1..]
  {
    DropDrop(s, n + 1, j - n - 1);
  }

  /** No double-brace placeholder begins in a form that is not one itself. */
  lemma {:induction false} NoBracedAt(f: Form, b: string, j: nat, t: string)
    requires GoodForm(f) && Ends(f, b) && !PlainBraces(f, b) && j < |Shown(f)| && |Shown(f)| <= |Text(f, b)| && t == Text(f, b)[j..]
    ensures Braced(t) == None
    decreases |f.opens|
  {
    var s := Text(f, b);
    if f.opens == [] {
      InnerNotBraced(f, b, j);
      NoBracedHere(s, j, t);
    } else {
      var n := f.opens[0];
      TextHead(f, b);
      if j < n {
        NoBracedHere(s, j, t);
      } else if j == n {
        NoBracedHead(f, b, t);
      } else {
        ShownText(Less(f), b);
        Later(s, n, j, Text(Less(f), b), t);
        NoBracedAt(Less(f), b, j - n - 1, t);
      }
    }
  }
}
