/**
 A placeholder with escaped braces, cut anywhere on its way: what has come of it is held back
 whole, so that the rest can join it.
 */
module EscapedCuts {
  import opened Wrappers
  import opened Seqs
  import opened Placeholders
  import opened Codec
  import Channel
  import D = Degraded

  /** Openers and closers behind up to three backslashes each; two of the latter. */
  ghost predicate EscapedBraces(opens: seq<nat>, closes: seq<nat>) {
    1 <= |opens| && D.Few(opens) && |closes| == 2 && D.Few(closes)
  }

  function EscapedToken(opens: seq<nat>, tag: string, suffix: string, closes: seq<nat>): string {
    D.Groups(opens, '{') + ((tag + "_" + suffix) + D.Groups(closes, '}'))
  }

  // ------------------------------------------------------------------- behind the openers

  lemma {:induction false} SlashesEnd(n: nat)
    requires n <= 3
    ensures Run(D.Slashes(n), IsBackslash, 3) == n && Channel.TailEnd(D.Slashes(n))
  {
    RunLength(D.Slashes(n), IsBackslash, 3, n);
  }

  lemma {:induction false} CloserEnd(c: nat, n: nat)
    requires c <= 3 && n <= 3
    ensures Channel.TailEnd(D.Slashes(c) + (['}'] + D.Slashes(n)))
  {
    var s := D.Slashes(c) + (['}'] + D.Slashes(n));
    RunLength(s, IsBackslash, 3, c);
    Seam(D.Slashes(c), ['}'] + D.Slashes(n));
    SlashesEnd(n);
  }

  /** Nothing or a backslash or a closing brace. */
  predicate EndChar(y: string) { y != "" ==> y[0] == '\\' || y[0] == '}' }

  lemma {:induction false} SpaceTail(y: string)
    requires Channel.TailEnd(y) && EndChar(y)
    ensures Channel.TailSpace(y)
  {
    RunLength(y, IsWhite, 4, 0);
    Whole(y);
  }

  lemma {:induction false} TailOf(s: string, w: string, y: string)
    requires s == w + y && Channel.TailSpace(y) && Run(s, IsWordChar, 20) == |w| && Run(s, IsWhite, 4) == 0
    ensures Channel.PartialTail(s)
  {
    Seam(w, y);
    Whole(s);
  }

  lemma {:induction false} WordTail(w: string, y: string)
    requires All(IsWordChar, w) && |w| <= 20 && Channel.TailEnd(y) && EndChar(y)
    ensures Channel.PartialTail(w + y)
  {
    var s := w + y;
    SpaceTail(y);
    RunLength(s, IsWhite, 4, 0);
    RunLength(s, IsWordChar, 20, |w|);
    TailOf(s, w, y);
  }

  /** A cut among the closers. */
  lemma {:induction false} ClosersCut(closes: seq<nat>, n: nat)
    requires |closes| == 2 && D.Few(closes) && n < |D.Groups(closes, '}')|
    ensures var y := D.Groups(closes, '}')[..n]; Channel.TailEnd(y) && EndChar(y)
  {
    var c, d := closes[0], closes[1];
    var s := D.Groups(closes, '}');
    TwoGroups(closes);
    if n <= c {
      assert s[..n] == D.Slashes(n);
      SlashesEnd(n);
    } else {
      assert s[..n] == D.Slashes(c) + (['}'] + D.Slashes(n - c - 1));
      CloserEnd(c, n - c - 1);
    }
  }

  lemma {:induction false} TwoGroups(closes: seq<nat>)
    requires |closes| == 2
    ensures D.Groups(closes, '}') == D.Slashes(closes[0]) + (['}'] + (D.Slashes(closes[1]) + ['}']))
  {
    var t := closes[1..];
    assert t[1..] == [];
    assert D.Groups(t, '}') == D.Slashes(closes[1]) + (['}'] + []);
  }

  lemma {:induction false} NameWord(tag: string, suffix: string)
    requires IsLabel(tag) && IsSuffix(suffix)
    ensures var w := tag + "_" + suffix; All(IsWordChar, w) && |w| <= 19
  {
    forall i | 0 <= i < 6 ensures IsWordChar(suffix[i]) { SuffixWord(suffix[i]); }
  }

  lemma {:induction false} SuffixWord(c: char)
    requires IsHex(c) || IsConsonant(c)
    ensures IsWordChar(c)
  {
  }

  /** A cut behind the openers. */
  lemma {:induction false} InnerCut(w: string, closes: seq<nat>, n: nat)
    requires All(IsWordChar, w) && |w| <= 19 && |closes| == 2 && D.Few(closes) && n < |w| + |D.Groups(closes, '}')|
    ensures Channel.PartialTail((w + D.Groups(closes, '}'))[..n])
  {
    var c := D.Groups(closes, '}');
    if n < |w| {
      assert (w + c)[..n] == w[..n] + "";
      SlashesEnd(0);
      WordTail(w[..n], "");
    } else {
      ClosersCut(closes, n - |w|);
      TakeBehind(w, c, n);
      WordTail(w, c[..n - |w|]);
    }
  }

  // --------------------------------------------------------------------- among the openers

  /** A cut among the openers: some whole ones, and backslashes. */
  lemma {:induction false} OpenersCut(opens: seq<nat>, n: nat) returns (k: nat, j: nat)
    requires D.Few(opens) && n < |D.Groups(opens, '{')|
    ensures k < |opens| && j <= 3 && D.Groups(opens, '{')[..n] == D.Groups(opens[..k], '{') + D.Slashes(j)
    decreases |opens|
  {
    var c, t := opens[0], opens[1..];
    var g := D.Groups(t, '{');
    if n <= c {
      k, j := 0, n;
      assert D.Groups(opens, '{')[..n] == D.Slashes(n);
      assert D.Groups([], '{') + D.Slashes(j) == D.Slashes(j);
    } else {
      k, j := OpenersCut(t, n - c - 1);
      var h := D.Groups(t[..k], '{');
      assert opens[..k + 1][1..] == t[..k];
      assert (D.Slashes(c) + (['{'] + g))[..n] == D.Slashes(c) + (['{'] + g[..n - c - 1]);
      Assoc(['{'], h, D.Slashes(j));
      Assoc(D.Slashes(c), ['{'] + h, D.Slashes(j));
      k := k + 1;
    }
  }

  lemma {:induction false} NoGroup(s: string)
    requires (|s| <= 3 && All(IsBackslash, s)) || (s != "" && s[0] !in "{\\")
    ensures Group(s, '{') == 0
  {
    if s == "" || s[0] == '\\' { RunLength(s, IsBackslash, 3, |s|); }
  }

  lemma {:induction false} Braced(opens: seq<nat>, t: string)
    requires 1 <= |opens| && D.Few(opens) && (|opens| == 3 || Group(t, '{') == 0) && Channel.PartialTail(t)
    ensures Channel.PartialBraced(D.Groups(opens, '{') + t)
  {
    var s := D.Groups(opens, '{') + t;
    D.GroupsSize(opens, '{');
    D.OpenersOn(opens, t, AtMost(3, s));
    Seam(D.Groups(opens, '{'), t);
  }

  // ------------------------------------------------------------------------------- the cut

  lemma {:induction false} CutEarly(opens: seq<nat>, n: nat)
    requires D.Few(opens) && 0 < n < |D.Groups(opens, '{')|
    ensures Channel.Partial(D.Groups(opens, '{')[..n])
  {
    var k, j := OpenersCut(opens, n);
    var t := D.Slashes(j);
    SlashesEnd(j);
    if k == 0 {
      assert D.Groups(opens[..k], '{') == "";
      Whole(t);
    } else {
      NoGroup(t);
      WordTail("", t);
      Whole(t);
      Braced(opens[..k], t);
    }
  }

  lemma {:induction false} CutLate(opens: seq<nat>, x: string)
    requires 1 <= |opens| && D.Few(opens) && Channel.PartialTail(x) && (x != "" ==> IsWordChar(x[0]))
    ensures Channel.Partial(D.Groups(opens, '{') + x)
  {
    NoGroup(x);
    Braced(opens, x);
  }

  /** Every proper prefix of a placeholder with escaped braces is a partial match, lone backslashes too. */
  lemma {:induction false} EscapedPrefixIsPartial(opens: seq<nat>, tag: string, suffix: string, closes: seq<nat>, n: nat)
    requires EscapedBraces(opens, closes) && IsLabel(tag) && IsSuffix(suffix)
    requires 0 < n < |EscapedToken(opens, tag, suffix, closes)|
    ensures Channel.Partial(EscapedToken(opens, tag, suffix, closes)[..n])
  {
    var g, w := D.Groups(opens, '{'), tag + "_" + suffix;
    var x := w + D.Groups(closes, '}');
    NameWord(tag, suffix);
    if n < |g| {
      CutEarly(opens, n);
      assert (g + x)[..n] == g[..n];
    } else {
      TakeBehind(g, x, n);
      InnerCut(w, closes, n - |g|);
      if n > |g| { assert x[..n - |g|][0] == w[0]; }
      CutLate(opens, x[..n - |g|]);
    }
  }

  lemma {:induction false} GroupsBound(counts: seq<nat>, brace: char)
    requires forall i :: 0 <= i < |counts| ==> counts[i] <= 3
    ensures |D.Groups(counts, brace)| <= 4 * |counts|
  {
    if counts != [] { GroupsBound(counts[1..], brace); }
  }

  lemma {:induction false} GroupsAscii(counts: seq<nat>, brace: char)
    requires Channel.IsAscii(brace)
    ensures All(Channel.IsAscii, D.Groups(counts, brace))
  {
    if counts != [] { GroupsAscii(counts[1..], brace); }
  }

  lemma {:induction false} NameAscii(tag: string, suffix: string)
    requires IsLabel(tag) && IsSuffix(suffix)
    ensures All(Channel.IsAscii, tag + "_" + suffix)
  {
    NameWord(tag, suffix);
    var w := tag + "_" + suffix;
    forall i | 0 <= i < |w| ensures Channel.IsAscii(w[i]) { assert IsWordChar(w[i]); }
  }

  lemma {:induction false} TokenAscii(opens: seq<nat>, tag: string, suffix: string, closes: seq<nat>)
    requires EscapedBraces(opens, closes) && IsLabel(tag) && IsSuffix(suffix)
    ensures |EscapedToken(opens, tag, suffix, closes)| <= 39 && All(Channel.IsAscii, EscapedToken(opens, tag, suffix, closes))
  {
    var g, w, c := D.Groups(opens, '{'), tag + "_" + suffix, D.Groups(closes, '}');
    GroupsBound(opens, '{');
    GroupsBound(closes, '}');
    NameWord(tag, suffix);
    NameAscii(tag, suffix);
    GroupsAscii(opens, '{');
    GroupsAscii(closes, '}');
    Channel.AllConcat(Channel.IsAscii, w, c);
    Channel.AllConcat(Channel.IsAscii, g, w + c);
  }

  /** And it is short enough to be held: whatever part of the placeholder has come waits for the rest. */
  lemma {:induction false} EscapedPrefixHeld(opens: seq<nat>, tag: string, suffix: string, closes: seq<nat>, n: nat)
    requires EscapedBraces(opens, closes) && IsLabel(tag) && IsSuffix(suffix)
    requires 0 < n < |EscapedToken(opens, tag, suffix, closes)|
    ensures Channel.Hold(EscapedToken(opens, tag, suffix, closes)[..n], Channel.Partial) == 0
  {
    EscapedPrefixIsPartial(opens, tag, suffix, closes, n);
    TokenAscii(opens, tag, suffix, closes);
    HeldWhole(EscapedToken(opens, tag, suffix, closes)[..n]);
  }

  lemma {:induction false} HeldWhole(s: string)
    requires Channel.Partial(s) && All(Channel.IsAscii, s) && |s| <= 48
    ensures Channel.Hold(s, Channel.Partial) == 0
  {
    Channel.AsciiSize(s);
    Whole(s);
  }
}
