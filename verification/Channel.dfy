/**
 One text channel of a stream: what `restore_channel` of src/stream/sse.rs holds back
 and what it lets out, and the theorem that how the text was cut does not matter.
 */
module Channel {
  import opened Wrappers
  import opened Seqs
  import opened Placeholders
  import opened Codec
  import opened Restore

  // ------------------------------------------------------------ the partial matcher

  /** `\s{0,4}[A-Za-z0-9_]{0,20}\s{0,4}\\{0,3}\}?\\{0,3}$` */
  predicate PartialTail(s: string) { TailWord(s[Run(s, IsWhite, 4)..]) }

  predicate TailWord(s: string) { TailSpace(s[Run(s, IsWordChar, 20)..]) }

  predicate TailSpace(s: string) { TailEnd(s[Run(s, IsWhite, 4)..]) }

  predicate TailEnd(s: string) {
    var t := s[Run(s, IsBackslash, 3)..];
    var u := if t != [] && t[0] == '}' then t[1..] else t;
    Run(u, IsBackslash, 3) == |u|
  }

  /** The braced alternative of partial_rx. */
  predicate PartialBraced(s: string) {
    var g := Openers(s, AtMost(3, s));
    g > 0 && PartialTail(s[g..])
  }

  predicate IsLowerOrDigit(c: char) { IsLower(c) || IsDigit(c) }

  /** `[A-Z0-9]{1,12}_[a-z0-9]{0,5}$` */
  predicate PartialBare(s: string) {
    var n := Run(s, IsLabelChar, 12);
    && 1 <= n < |s| && s[n] == '_'
    && |s| - n - 1 <= 5 && All(IsLowerOrDigit, s[n + 1..])
  }

  /** partial_rx matches all of s. Every alternative is anchored at the end of the haystack. */
  predicate Partial(s: string) {
    || PartialBraced(s)
    || (1 <= |s| <= 3 && All(IsBackslash, s))
    || PartialBare(s)
  }

  /** A pattern anchored at the end of the haystack: does it match all of s? */
  type Pattern = string -> bool

  /** Where the leftmost match begins, |s| if there is none. */
  function FirstMatch(s: string, m: Pattern): (i: nat)
    ensures i <= |s|
  {
    if s == [] || m(s) then 0 else 1 + FirstMatch(s[1..], m)
  }

  const PARTIAL_MAX: nat := 48

  /** Everything from here on is held back; the cap counts UTF-8 bytes. */
  function Hold(buf: string, m: Pattern): (h: nat)
    ensures h <= |buf|
  {
    var i := FirstMatch(buf, m);
    if Utf8Size(buf[i..]) <= PARTIAL_MAX then i else |buf|
  }

  // ------------------------------------------------------------- one channel's run

  /** What one channel sees: text, the last of it or not, or a flush ahead of a terminal event. */
  datatype Event = Delta(text: string, last: bool) | Flush

  function Text(e: Event): string { if e.Delta? then e.text else "" }

  /** Nothing is held after the event. */
  predicate Ends(e: Event) { e.Flush? || e.last }

  function Confirmed(pend: string, e: Event, m: Pattern): string {
    var buf := pend + Text(e);
    if Ends(e) then buf else buf[..Hold(buf, m)]
  }

  function Pending(pend: string, e: Event, m: Pattern): string {
    var buf := pend + Text(e);
    if Ends(e) then "" else buf[Hold(buf, m)..]
  }

  /** The text a run writes on the channel, restored by f. */
  function Output(pend: string, es: seq<Event>, m: Pattern, f: string -> string): string
    decreases |es|
  {
    if es == [] then ""
    else f(Confirmed(pend, es[0], m)) + Output(Pending(pend, es[0], m), es[1..], m, f)
  }

  function PendingAfter(pend: string, es: seq<Event>, m: Pattern): string
    decreases |es|
  {
    if es == [] then pend else PendingAfter(Pending(pend, es[0], m), es[1..], m)
  }

  function Input(es: seq<Event>): string {
    if es == [] then "" else Text(es[0]) + Input(es[1..])
  }

  // ------------------------------------------------------ shape of a partial match

  lemma {:induction false} TokenChars(tag: string, suffix: string, i: nat)
    requires IsLabel(tag) && IsSuffix(suffix) && 2 <= i <= |tag| + 9
    ensures if i == |tag| + 9 then Token(tag, suffix)[i] == '}' else IsWordChar(Token(tag, suffix)[i])
    ensures i == 2 ==> IsLabelChar(Token(tag, suffix)[i])
  {
    var t := Token(tag, suffix);
    if i < |tag| + 2 { assert t[i] == tag[i - 2]; }
    else if |tag| + 2 < i < |tag| + 9 { assert t[i] == suffix[i - |tag| - 3]; }
  }

  lemma {:induction false} FirstBraceIsPartial()
    ensures Partial("{")
  {
    var p := "{";
    assert Group(p, '{') == 1 && Openers(p[1..], 0) == 0;
    assert PartialTail(p[1..]);
  }

  /** A placeholder cut anywhere inside is held: every proper prefix matches. */
  lemma {:induction false} PrefixIsPartial(tag: string, suffix: string, n: nat)
    requires IsLabel(tag) && IsSuffix(suffix) && 0 < n < |tag| + 11
    ensures Partial(Token(tag, suffix)[..n])
  {
    var p := Token(tag, suffix)[..n];
    if n == 1 {
      FirstBraceIsPartial();
      assert p == "{";
    } else {
      var w := p[2..];
      assert p[0] == '{' && p[1] == '{';
      TokenChars(tag, suffix, 2);
      OpenersOfPrefix(p);
      var m := if n == |tag| + 10 then n - 3 else n - 2;
      forall i | 0 <= i < |w| ensures if i == |tag| + 7 then w[i] == '}' else IsWordChar(w[i]) {
        assert w[i] == Token(tag, suffix)[2 + i];
        TokenChars(tag, suffix, 2 + i);
      }
      WordTail(w, m);
    }
  }

  lemma {:induction false} OpenersOfPrefix(p: string)
    requires |p| >= 2 && p[0] == '{' && p[1] == '{' && (|p| == 2 || IsLabelChar(p[2]))
    ensures Openers(p, AtMost(3, p)) == 2
  {
    var u, v := p[1..], p[2..];
    assert u[1..] == v;
    assert Group(p, '{') == 1 by { assert Run(p, IsBackslash, 3) == 0; }
    assert Group(u, '{') == 1 by { assert Run(u, IsBackslash, 3) == 0; }
    assert Group(v, '{') == 0 by { assert Run(v, IsBackslash, 3) == 0; }
    var k := AtMost(3, p);
    assert Openers(v, k - 2) == 0;
    assert Openers(u, k - 1) == 1;
  }

  /** A run of word characters, then at most one brace, is a tail. */
  lemma {:induction false} WordTail(w: string, m: nat)
    requires m <= |w| <= m + 1 && m <= 19
    requires forall i :: 0 <= i < m ==> IsWordChar(w[i])
    requires |w| == m + 1 ==> w[m] == '}'
    ensures PartialTail(w)
  {
    assert Run(w, IsWhite, 4) == 0;
    assert w[0..] == w;
    RunLength(w, IsWordChar, 20, m);
    var s2 := w[m..];
    assert Run(s2, IsWhite, 4) == 0 && s2[0..] == s2;
    assert Run(s2, IsBackslash, 3) == 0;
  }

  /** How many closing braces s has. */
  function Closing(s: string): nat {
    if s == [] then 0 else (if s[0] == '}' then 1 else 0) + Closing(s[1..])
  }

  lemma {:induction false} ClosingSplit(s: string, n: nat)
    requires n <= |s|
    ensures Closing(s) == Closing(s[..n]) + Closing(s[n..])
  {
    if n > 0 {
      ClosingSplit(s[1..], n - 1);
      assert s[1..][..n - 1] == s[..n][1..];
      assert s[1..][n - 1..] == s[n..];
    } else {
      assert s[0..] == s;
    }
  }

  lemma {:induction false} ClosingNone(s: string, p: char -> bool)
    requires All(p, s) && !p('}')
    ensures Closing(s) == 0
  {
    if s != [] {
      assert p(s[0]);
      assert All(p, s[1..]);
      ClosingNone(s[1..], p);
    }
  }

  /** Dropping a run of a class without closing braces keeps their number. */
  lemma {:induction false} ClosingAfterRun(s: string, p: char -> bool, max: nat)
    requires !p('}')
    ensures Closing(s) == Closing(s[Run(s, p, max)..])
  {
    var n := Run(s, p, max);
    RunAll(s, p, max);
    ClosingNone(s[..n], p);
    ClosingSplit(s, n);
  }

  lemma {:induction false} EndClosing(s: string)
    requires TailEnd(s)
    ensures Closing(s) <= 1
  {
    var t := s[Run(s, IsBackslash, 3)..];
    var u := if t != [] && t[0] == '}' then t[1..] else t;
    ClosingAfterRun(s, IsBackslash, 3);
    ClosingAfterRun(u, IsBackslash, 3);
    assert Closing(u) == 0;
  }

  lemma {:induction false} WordClosing(s: string)
    requires TailWord(s)
    ensures Closing(s) <= 1
  {
    var t := s[Run(s, IsWordChar, 20)..];
    ClosingAfterRun(s, IsWordChar, 20);
    ClosingAfterRun(t, IsWhite, 4);
    EndClosing(t[Run(t, IsWhite, 4)..]);
  }

  lemma {:induction false} TailClosing(s: string)
    requires PartialTail(s)
    ensures Closing(s) <= 1
  {
    ClosingAfterRun(s, IsWhite, 4);
    WordClosing(s[Run(s, IsWhite, 4)..]);
  }

  lemma {:induction false} GroupClosing(s: string)
    ensures Closing(s) == Closing(s[Group(s, '{')..])
  {
    var b := Run(s, IsBackslash, 3);
    ClosingAfterRun(s, IsBackslash, 3);
    if b < |s| && s[b] == '{' {
      assert s[b..][1..] == s[b + 1..];
    } else {
      assert s[0..] == s;
    }
  }

  lemma {:induction false} OpenersClosing(s: string, k: nat)
    ensures Closing(s) == Closing(s[Openers(s, k)..])
  {
    var g := Group(s, '{');
    if k == 0 || g == 0 {
      assert s[0..] == s;
    } else {
      GroupClosing(s);
      OpenersClosing(s[g..], k - 1);
      DropDrop(s, g, Openers(s[g..], k - 1));
    }
  }

  predicate IsBareChar(c: char) { IsLabelChar(c) || c == '_' || IsLowerOrDigit(c) }

  lemma {:induction false} BareShape(s: string)
    requires PartialBare(s)
    ensures |s| <= 18 && All(IsBareChar, s)
  {
    var n := Run(s, IsLabelChar, 12);
    RunAll(s, IsLabelChar, 12);
    forall i | 0 <= i < |s| ensures IsBareChar(s[i]) {
      if i < n { assert s[i] == s[..n][i]; }
      else if i > n { assert s[i] == s[n + 1..][i - n - 1]; }
    }
  }

  /** A partial match has at most one closing brace. */
  lemma {:induction false} PartialClosing(s: string)
    requires Partial(s)
    ensures Closing(s) <= 1
  {
    if PartialBraced(s) {
      var k := AtMost(3, s);
      OpenersClosing(s, k);
      TailClosing(s[Openers(s, k)..]);
    } else if All(IsBackslash, s) {
      ClosingNone(s, IsBackslash);
    } else {
      BareShape(s);
      ClosingNone(s, IsBareChar);
    }
  }

  lemma {:induction false} PartialStart(s: string)
    requires Partial(s)
    ensures s != [] && s[0] != '}'
  {
    if s != [] && PartialBare(s) { BareShape(s); }
  }

  predicate IsAscii(c: char) { c < '\U{80}' }

  lemma {:induction false} AsciiSize(s: string)
    requires All(IsAscii, s)
    ensures Utf8Size(s) == |s|
  {
    if s != [] {
      assert IsAscii(s[0]);
      assert All(IsAscii, s[1..]);
      AsciiSize(s[1..]);
    }
  }

  lemma {:induction false} AllConcat(p: char -> bool, a: string, b: string)
    requires All(p, a) && All(p, b)
    ensures All(p, a + b)
  {
  }

  lemma {:induction false} NoBraceNotBraced(w: string)
    requires '{' !in w
    ensures !PartialBraced(w)
  {
    assert Group(w, '{') == 0;
  }

  /** Held brace-free text is short. */
  lemma {:induction false} HeldPlainSize(w: string)
    requires Partial(w) && '{' !in w
    ensures Utf8Size(w) <= 18
  {
    if PartialBare(w) {
      BareShape(w);
      assert All(IsAscii, w);
      AsciiSize(w);
    } else {
      NoBraceNotBraced(w);
      assert All(IsAscii, w);
      AsciiSize(w);
    }
  }

  /** What is held in front of an opening brace is at most three backslashes. */
  lemma {:induction false} HeldBeforeBrace(w: string, p: string)
    requires p != [] && p[0] == '{' && '{' !in w && Partial(w + p)
    ensures |w| <= 3 && All(IsBackslash, w)
  {
    var s := w + p;
    assert s[|w|] == '{' && s[..|w|] == w;
    NotBare(s, |w|);
    BracedStart(s);
    BackslashesBefore(s, |w|);
  }

  lemma {:induction false} NotBare(s: string, n: nat)
    requires n < |s| && s[n] == '{' && Partial(s)
    ensures PartialBraced(s)
  {
    if PartialBare(s) { BareShape(s); }
  }

  lemma {:induction false} BracedStart(s: string)
    requires PartialBraced(s)
    ensures Group(s, '{') > 0
  {
  }

  /** An opening group whose brace is the first one of the text. */
  lemma {:induction false} BackslashesBefore(s: string, n: nat)
    requires n < |s| && s[n] == '{' && '{' !in s[..n] && Group(s, '{') > 0
    ensures n <= 3 && All(IsBackslash, s[..n])
  {
    var b := Run(s, IsBackslash, 3);
    InTake(s, b, n);
    InTake(s, n, b);
    RunAll(s, IsBackslash, 3);
  }

  lemma {:induction false} TokenAscii(tag: string, suffix: string, n: nat)
    requires IsLabel(tag) && IsSuffix(suffix) && n <= |tag| + 11
    ensures All(IsAscii, Token(tag, suffix)[..n])
  {
    assert All(IsAscii, tag) && All(IsAscii, suffix);
    assert All(IsAscii, Token(tag, suffix));
  }

  // -------------------------------------------------------------- what the proof uses

  /** p is empty or a placeholder cut short. */
  ghost predicate CutToken(p: string) {
    p != "" ==> exists tag, suffix, n :: IsLabel(tag) && IsSuffix(suffix) && 0 < n < |tag| + 11
                                         && p == Token(tag, suffix)[..n]
  }

  /** The four facts about the partial pattern that cut invariance rests on. */
  ghost predicate Lawful(m: Pattern) {
    && (forall p :: CutToken(p) && p != "" ==> m(p))
    && (forall s :: m(s) ==> Closing(s) <= 1 && s != "" && s[0] != '}')
    && (forall s :: m(s) && '{' !in s ==> Utf8Size(s) <= 18)
    && (forall w, p :: CutToken(p) && p != "" && '{' !in w && m(w + p) ==> Utf8Size(w + p) <= 25)
  }

  lemma {:induction false} CutTokenPartial(p: string)
    requires CutToken(p) && p != ""
    ensures Partial(p) && p[0] == '{' && All(IsAscii, p) && |p| <= 22
  {
    var tag, suffix, n :| IsLabel(tag) && IsSuffix(suffix) && 0 < n < |tag| + 11
                          && p == Token(tag, suffix)[..n];
    PrefixIsPartial(tag, suffix, n);
    TokenAscii(tag, suffix, n);
  }

  lemma {:induction false} HeldBeforeTokenSize(w: string, p: string)
    requires CutToken(p) && p != "" && '{' !in w && Partial(w + p)
    ensures Utf8Size(w + p) <= 25
  {
    CutTokenPartial(p);
    HeldBeforeBrace(w, p);
    assert All(IsAscii, w);
    AllConcat(IsAscii, w, p);
    AsciiSize(w + p);
  }

  /** partial_rx has them: it holds every cut placeholder and little else. */
  lemma {:induction false} PartialLawful()
    ensures Lawful(Partial)
  {
    forall p | CutToken(p) && p != "" ensures Partial(p) { CutTokenPartial(p); }
    forall s | Partial(s) ensures Closing(s) <= 1 && s != "" && s[0] != '}' { PartialClosing(s); PartialStart(s); }
    forall s | Partial(s) && '{' !in s ensures Utf8Size(s) <= 18 { HeldPlainSize(s); }
    forall w, p | CutToken(p) && p != "" && '{' !in w && Partial(w + p)
      ensures Utf8Size(w + p) <= 25 { HeldBeforeTokenSize(w, p); }
  }

  // ----------------------------------------------------- the hold ends between pieces

  /** Inside a complete placeholder nothing can be held from. */
  lemma {:induction false} NotFromInside(tag: string, suffix: string, rest: string, i: nat, m: Pattern)
    requires IsLabel(tag) && IsSuffix(suffix) && i < |tag| + 11 && Lawful(m)
    ensures !m((Token(tag, suffix) + rest)[i..])
  {
    var s := (Token(tag, suffix) + rest)[i..];
    var e := |tag| + 9 - i;
    if e >= 0 {
      assert s[e] == '}' && s[e + 1] == '}';
      ClosingSplit(s, e);
      var t := s[e..];
      assert t[0] == '}' && t[1..][0] == '}';
      assert Closing(t) == 1 + Closing(t[1..]);
    } else {
      assert s[0] == (Token(tag, suffix) + rest)[i];
    }
  }

  lemma {:induction false} SkipNoMatch(s: string, k: nat, m: Pattern)
    requires k <= |s| && forall i :: 0 <= i < k ==> !m(s[i..])
    ensures FirstMatch(s, m) == k + FirstMatch(s[k..], m)
  {
    if k > 0 {
      assert s[0..] == s;
      forall i | 0 <= i < k - 1 ensures !m(s[1..][i..]) {
        assert s[1..][i..] == s[i + 1..];
      }
      SkipNoMatch(s[1..], k - 1, m);
      assert s[1..][k - 1..] == s[k..];
    } else {
      assert s[0..] == s;
    }
  }

  /** No match begins in the first piece unless one begins at its start. */
  lemma {:induction false} FirstPieceStep(piece: Piece, rest: string, m: Pattern)
    requires ValidPiece(piece) && Lawful(m) && FirstMatch(RenderOne(piece) + rest, m) != 0
    ensures FirstMatch(RenderOne(piece) + rest, m) == |RenderOne(piece)| + FirstMatch(rest, m)
  {
    var one := RenderOne(piece);
    var s := one + rest;
    forall i | 0 <= i < |one| ensures !m(s[i..]) {
      if piece.Tok? { NotFromInside(piece.tag, piece.suffix, rest, i, m); }
      else { assert s[0..] == s; }
    }
    SkipNoMatch(s, |one|, m);
    assert s[|one|..] == rest;
  }

  /** The leftmost partial match of pieces and a cut placeholder begins between pieces. */
  lemma {:induction false} FirstMatchAt(ps: seq<Piece>, p: string, m: Pattern) returns (j: nat)
    requires Valid(ps) && CutToken(p) && Lawful(m)
    ensures j <= |ps| && FirstMatch(Render(ps) + p, m) == |Render(ps[..j])|
    ensures FirstMatch(Render(ps[j..]) + p, m) == 0
    decreases |ps|
  {
    if FirstMatch(Render(ps) + p, m) == 0 {
      j := 0;
      Whole(ps);
    } else if ps == [] {
      Whole(p);
      assert false;
    } else {
      assert ValidPiece(ps[0]);
      ValidDrop(ps, 1);
      var i := FirstMatchAt(ps[1..], p, m);
      Assoc(RenderOne(ps[0]), Render(ps[1..]), p);
      FirstPieceStep(ps[0], Render(ps[1..]) + p, m);
      j := i + 1;
      ShiftPieces(ps, i);
    }
  }

  lemma {:induction false} ShiftPieces(ps: seq<Piece>, i: nat)
    requires i < |ps|
    ensures ps[1..][..i] == ps[..i + 1][1..]
    ensures Render(ps[..i + 1]) == RenderOne(ps[0]) + Render(ps[1..][..i])
    ensures ps[i + 1..] == ps[1..][i..]
  {
    assert ps[..i + 1][1..] == ps[1..][..i];
  }

  lemma {:induction false} SplitAt(ps: seq<Piece>, i: nat)
    requires i <= |ps|
    ensures Render(ps[..i]) + Render(ps[i..]) == Render(ps)
  {
    Halves(ps, i);
    RenderConcat(ps[..i], ps[i..]);
  }

  /** A partial match reaches over no complete placeholder. */
  lemma {:induction false} NoTokenInside(ps: seq<Piece>, p: string, m: Pattern)
    requires FirstMatch(Render(ps) + p, m) == 0 && Valid(ps) && Lawful(m)
    ensures forall i :: 0 <= i < |ps| ==> ps[i].Plain?
  {
    forall i | 0 <= i < |ps| ensures ps[i].Plain? {
      if ps[i].Tok? {
        assert ValidPiece(ps[i]);
        SplitAt(ps, i);
        assert ps[i..][0] == ps[i];
        ClosingOver(Render(ps[..i]), ps[i].tag, ps[i].suffix, Render(ps[i..][1..]), p);
        assert Render(ps) + p == Render(ps[..i]) + (Token(ps[i].tag, ps[i].suffix) + Render(ps[i..][1..])) + p;
        assert m(Render(ps) + p);
      }
    }
  }

  lemma {:induction false} ClosingOver(a: string, tag: string, suffix: string, b: string, p: string)
    requires |suffix| == 6
    ensures Closing(a + (Token(tag, suffix) + b) + p) >= 2
  {
    var s := a + (Token(tag, suffix) + b) + p;
    ClosingSplit(s, |a|);
    assert s[|a|..] == Token(tag, suffix) + (b + p);
    TokenClosing(tag, suffix, b + p);
  }

  lemma {:induction false} TokenClosing(tag: string, suffix: string, b: string)
    requires |suffix| == 6
    ensures Closing(Token(tag, suffix) + b) >= 2
  {
    var s := Token(tag, suffix) + b;
    var e := |tag| + 9;
    ClosingSplit(s, e);
    var t := s[e..];
    assert t[0] == '}' && t[1..][0] == '}';
    assert Closing(t) == 1 + Closing(t[1..]);
  }

  lemma {:induction false} RenderPlainFree(ps: seq<Piece>)
    requires Valid(ps) && forall i :: 0 <= i < |ps| ==> ps[i].Plain?
    ensures '{' !in Render(ps)
  {
    if ps != [] {
      assert ValidPiece(ps[0]);
      ValidDrop(ps, 1);
      RenderPlainFree(ps[1..]);
    }
  }

  /** What is held fits the cap. */
  lemma {:induction false} HeldSize(w: string, p: string, m: Pattern)
    requires '{' !in w && CutToken(p) && Lawful(m) && FirstMatch(w + p, m) == 0
    ensures Utf8Size(w + p) <= 25
  {
    if p == "" { assert w + p == w; }
  }

  /** The hold of pieces and a cut placeholder begins between pieces. */
  lemma {:induction false} HoldAt(ps: seq<Piece>, p: string, m: Pattern) returns (j: nat)
    requires Valid(ps) && CutToken(p) && Lawful(m)
    ensures j <= |ps| && Hold(Render(ps) + p, m) == |Render(ps[..j])|
    ensures (Render(ps) + p)[..Hold(Render(ps) + p, m)] == Render(ps[..j])
  {
    j := FirstMatchAt(ps, p, m);
    SplitAt(ps, j);
    Assoc(Render(ps[..j]), Render(ps[j..]), p);
    Seam(Render(ps[..j]), Render(ps[j..]) + p);
    HeldPieces(ps[j..], p, m) by { ValidDrop(ps, j); }
  }

  lemma {:induction false} HeldPieces(ps: seq<Piece>, p: string, m: Pattern)
    requires Valid(ps) && CutToken(p) && Lawful(m) && FirstMatch(Render(ps) + p, m) == 0
    ensures Utf8Size(Render(ps) + p) <= 25
  {
    NoTokenInside(ps, p, m);
    RenderPlainFree(ps);
    HeldSize(Render(ps), p, m);
  }

  // ----------------------------------------------------------------- cut invariance

  /** A cut inside the first piece. */
  lemma {:induction false} FirstPieceCut(ps: seq<Piece>, n: nat)
    requires ps != [] && ValidPiece(ps[0]) && 0 < n < |RenderOne(ps[0])|
    ensures CutToken(RenderOne(ps[0])[..n]) && Render(ps)[..n] == RenderOne(ps[0])[..n]
  {
    var p := RenderOne(ps[0])[..n];
    assert p == Token(ps[0].tag, ps[0].suffix)[..n];
  }

  lemma {:induction false} LaterPieceCut(ps: seq<Piece>, n: nat, k: nat, p: string)
    requires ps != [] && k < |ps| && |RenderOne(ps[0])| <= n <= |Render(ps)|
    requires Render(ps[1..])[..n - |RenderOne(ps[0])|] == Render(ps[1..][..k]) + p
    ensures Render(ps)[..n] == Render(ps[..k + 1]) + p
  {
    var one := RenderOne(ps[0]);
    ShiftPieces(ps, k);
    TakeBehind(one, Render(ps[1..]), n);
    Assoc(one, Render(ps[1..][..k]), p);
  }

  /** Any prefix of a rendering is whole pieces and a cut placeholder. */
  lemma {:induction false} PrefixSplit(ps: seq<Piece>, n: nat) returns (k: nat, p: string)
    requires Valid(ps) && n <= |Render(ps)|
    ensures k <= |ps| && CutToken(p) && Render(ps)[..n] == Render(ps[..k]) + p
  {
    if n == 0 {
      k, p := 0, "";
    } else {
      assert ValidPiece(ps[0]);
      ValidDrop(ps, 1);
      var one := RenderOne(ps[0]);
      if n < |one| {
        k, p := 0, one[..n];
        FirstPieceCut(ps, n);
      } else {
        k, p := PrefixSplit(ps[1..], n - |one|);
        LaterPieceCut(ps, n, k, p);
        k := k + 1;
      }
    }
  }

  ghost predicate AtBoundary(ps: seq<Piece>, n: nat) {
    exists k :: 0 <= k <= |ps| && n == |Render(ps[..k])|
  }

  /**
   The events cut the text of ps from character n on in some way: any deltas at all,
   but flushes and last deltas fall between pieces.
   */
  ghost predicate Cuts(ps: seq<Piece>, n: nat, es: seq<Event>)
    decreases |es|
  {
    if es == [] then n == |Render(ps)|
    else
      var m := n + |Text(es[0])|;
      && m <= |Render(ps)| && Render(ps)[n..m] == Text(es[0])
      && (Ends(es[0]) ==> AtBoundary(ps, m))
      && Cuts(ps, m, es[1..])
  }

  /** One event of a cut, and the others. */
  ghost predicate CutOnce(ps: seq<Piece>, n: nat, e: Event, m: nat) {
    && m == n + |Text(e)| && m <= |Render(ps)| && Render(ps)[n..m] == Text(e) && (Ends(e) ==> AtBoundary(ps, m))
  }

  lemma {:induction false} CutsStep(ps: seq<Piece>, n: nat, es: seq<Event>) returns (m: nat)
    requires es != [] && Cuts(ps, n, es)
    ensures m == n + |Text(es[0])| && CutOnce(ps, n, es[0], m) && Cuts(ps, m, es[1..])
  {
    m := n + |Text(es[0])|;
  }

  lemma {:induction false} CutsCons(ps: seq<Piece>, n: nat, es: seq<Event>, m: nat)
    requires es != [] && CutOnce(ps, n, es[0], m) && Cuts(ps, m, es[1..])
    ensures Cuts(ps, n, es)
  {
    assert Cuts(ps, n, es) <==>
      && m <= |Render(ps)| && Render(ps)[n..m] == Text(es[0])
      && (Ends(es[0]) ==> AtBoundary(ps, m)) && Cuts(ps, m, es[1..]);
  }

  lemma {:induction false} SliceAfter(s: string, a: string, b: string, n: nat, m: nat, n': nat, m': nat)
    requires s == a + b && n == |a| + n' && m == |a| + m' && n' <= m' && m <= |s|
    ensures m' <= |b| && s[n..m] == b[n'..m']
  {
    SliceBehind(a, b, n, m);
  }

  lemma {:induction false} CutOnceDrop(ps: seq<Piece>, j: nat, n: nat, n': nat, e: Event, m: nat, m': nat)
    requires j <= |ps| && n == |Render(ps[..j])| + n' && m == |Render(ps[..j])| + m' && CutOnce(ps, n, e, m)
    ensures CutOnce(ps[j..], n', e, m')
  {
    SplitAt(ps, j);
    SliceAfter(Render(ps), Render(ps[..j]), Render(ps[j..]), n, m, n', m');
    if Ends(e) { BoundaryDrop(ps, j, m, m'); }
  }

  lemma {:induction false} CutsEnd(ps: seq<Piece>, j: nat, n: nat, n': nat)
    requires j <= |ps| && n == |Render(ps[..j])| + n' && Cuts(ps, n, [])
    ensures Cuts(ps[j..], n', [])
  {
    SplitAt(ps, j);
  }

  /** Pieces already let out may be forgotten. */
  lemma {:induction false} CutsDrop(ps: seq<Piece>, j: nat, n: nat, n': nat, es: seq<Event>)
    requires j <= |ps| && n == |Render(ps[..j])| + n' && Cuts(ps, n, es)
    ensures Cuts(ps[j..], n', es)
    decreases |es|
  {
    if es == [] {
      CutsEnd(ps, j, n, n');
    } else {
      var m := CutsStep(ps, n, es);
      var m' := n' + |Text(es[0])|;
      CutOnceDrop(ps, j, n, n', es[0], m, m');
      CutsDrop(ps, j, m, m', es[1..]);
      CutsCons(ps[j..], n', es, m');
    }
  }

  lemma {:induction false} MorePieces(ps: seq<Piece>, k: nat, j: nat)
    requires k < j <= |ps|
    ensures |Render(ps[..k])| < |Render(ps[..j])|
  {
    SplitAt(ps[..j], k);
    TakeTake(ps, k, j);
    assert ps[..j][k..] != [];
  }

  lemma {:induction false} BoundaryDrop(ps: seq<Piece>, j: nat, n: nat, n': nat)
    requires j <= |ps| && n == |Render(ps[..j])| + n' && AtBoundary(ps, n)
    ensures AtBoundary(ps[j..], n')
  {
    var k :| 0 <= k <= |ps| && n == |Render(ps[..k])|;
    if k >= j {
      SplitAt(ps[..k], j);
      assert ps[..k][..j] == ps[..j] && ps[..k][j..] == ps[j..][..k - j];
    } else {
      MorePieces(ps, k, j);
      assert false;
    }
  }

  lemma {:induction false} BoundarySplit(ps: seq<Piece>, n: nat) returns (k: nat)
    requires AtBoundary(ps, n)
    ensures k <= |ps| && n <= |Render(ps)| && Render(ps)[..n] == Render(ps[..k])
  {
    k :| 0 <= k <= |ps| && n == |Render(ps[..k])|;
    SplitAt(ps, k);
    Seam(Render(ps[..k]), Render(ps[k..]));
  }

  /** One event lets out whole pieces; what it holds is again a prefix of the rest. */
  lemma {:induction false} EventLetsOut(ps: seq<Piece>, pend: string, e: Event, n: nat, m: Pattern) returns (j: nat)
    requires Valid(ps) && n <= |Render(ps)| && Lawful(m)
    requires pend + Text(e) == Render(ps)[..n] && (Ends(e) ==> AtBoundary(ps, n))
    ensures j <= |ps| && Confirmed(pend, e, m) == Render(ps[..j])
    ensures Confirmed(pend, e, m) + Pending(pend, e, m) == Render(ps)[..n]
  {
    if !Ends(e) {
      var k, p := PrefixSplit(ps, n);
      ValidTake(ps, k);
      j := HoldAt(ps[..k], p, m);
      assert ps[..k][..j] == ps[..j];
    } else {
      j := BoundarySplit(ps, n);
    }
  }

  lemma {:induction false} ValidTake(ps: seq<Piece>, k: nat)
    requires k <= |ps| && Valid(ps)
    ensures Valid(ps[..k])
  {
  }

  lemma {:induction false} AfterPieces(ps: seq<Piece>, j: nat, n: nat, q: string)
    requires j <= |ps| && n <= |Render(ps)| && Render(ps[..j]) + q == Render(ps)[..n]
    ensures |q| == n - |Render(ps[..j])| <= |Render(ps[j..])| && q == Render(ps[j..])[..|q|]
  {
    SplitAt(ps, j);
    TakeBehind(Render(ps[..j]), Render(ps[j..]), n);
    Cancel(Render(ps[..j]), q, Render(ps[j..])[..n - |Render(ps[..j])|]);
  }

  /** Letting out the first j pieces leaves the same to be shown for the others. */
  lemma {:induction false} LetOut(ps: seq<Piece>, j: nat, r: Resolver)
    requires j <= |ps| && Restorable(ps, r)
    ensures Restorable(ps[..j], r) && Restorable(ps[j..], r)
    ensures RestoreFinal(Render(ps[..j]), r) + Expand(ps[j..], r) == Expand(ps, r)
  {
    Halves(ps, j);
    RestorableParts(ps[..j], ps[j..], r);
    RestoreRendered(ps[..j], r);
    ExpandConcat(ps[..j], ps[j..], r);
  }

  lemma {:induction false} PrefixGrows(s: string, pend: string, e: Event, ps: seq<Piece>, n: nat)
    requires s == Render(ps) && |pend| <= |s| && pend == s[..|pend|] && CutOnce(ps, |pend|, e, n)
    ensures n <= |s| && pend + Text(e) == s[..n]
  {
    TakeSlice(s, |pend|, n);
  }

  /** Whatever is let out and held by one event, what remains is of the same kind. */
  lemma {:induction false} OneEvent(ps: seq<Piece>, pend: string, es: seq<Event>, m: Pattern, r: Resolver) returns (j: nat)
    requires Restorable(ps, r) && Lawful(m) && es != []
    requires |pend| <= |Render(ps)| && pend == Render(ps)[..|pend|] && Cuts(ps, |pend|, es)
    ensures j <= |ps| && Restorable(ps[..j], r) && Restorable(ps[j..], r)
    ensures Confirmed(pend, es[0], m) == Render(ps[..j])
    ensures var q := Pending(pend, es[0], m);
            |q| <= |Render(ps[j..])| && q == Render(ps[j..])[..|q|] && Cuts(ps[j..], |q|, es[1..])
    ensures RestoreFinal(Confirmed(pend, es[0], m), r) + Expand(ps[j..], r) == Expand(ps, r)
  {
    var n := CutsStep(ps, |pend|, es);
    PrefixGrows(Render(ps), pend, es[0], ps, n);
    j := EventLetsOut(ps, pend, es[0], n, m);
    var q := Pending(pend, es[0], m);
    AfterPieces(ps, j, n, q);
    LetOut(ps, j, r);
    CutsDrop(ps, j, n, |q|, es[1..]);
  }

  lemma {:induction false} OutputIsExpand(ps: seq<Piece>, pend: string, es: seq<Event>, m: Pattern, r: Resolver, f: string -> string)
    requires Restorable(ps, r) && Lawful(m) && forall s :: f(s) == RestoreFinal(s, r)
    requires |pend| <= |Render(ps)| && pend == Render(ps)[..|pend|] && Cuts(ps, |pend|, es)
    ensures Output(pend, es, m, f) + f(PendingAfter(pend, es, m)) == Expand(ps, r)
    decreases |es|
  {
    if es == [] {
      Whole(Render(ps));
      RestoreRendered(ps, r);
    } else {
      var j := OneEvent(ps, pend, es, m, r);
      var q := Pending(pend, es[0], m);
      OutputIsExpand(ps[j..], q, es[1..], m, r, f);
      Assoc(f(Confirmed(pend, es[0], m)), Output(q, es[1..], m, f), f(PendingAfter(q, es[1..], m)));
    }
  }

  /**
   Cut invariance. However the text of a channel is cut into deltas, the outputs
   together with the final flush are what restoring the whole text at once gives.
   */
  lemma {:induction false} CutInvariance(ps: seq<Piece>, es: seq<Event>, r: Resolver)
    requires Restorable(ps, r) && Cuts(ps, 0, es)
    ensures Output("", es, Partial, s => RestoreFinal(s, r)) + RestoreFinal(PendingAfter("", es, Partial), r)
         == RestoreFinal(Render(ps), r)
  {
    PartialLawful();
    OutputIsExpand(ps, "", es, Partial, r, s => RestoreFinal(s, r));
    RestoreRendered(ps, r);
  }

  // --------------------------------------------------------------- where it does not hold

  lemma {:induction false} LabelsNotPartial(s: string)
    requires All(IsLabelChar, s)
    ensures !Partial(s) && FirstMatch(s, Partial) == |s|
  {
    if s != [] {
      assert IsLabelChar(s[0]);
      RunLength(s, IsLabelChar, 12, if |s| < 12 then |s| else 12);
      if |s| > 12 { assert IsLabelChar(s[12]); }
      assert Run(s, IsBackslash, 3) == 0 && Group(s, '{') == 0;
      assert All(IsLabelChar, s[1..]);
      LabelsNotPartial(s[1..]);
    }
  }

  lemma {:induction false} BarePartial(tag: string, part: string)
    requires IsLabel(tag) && |part| <= 5 && All(IsLowerOrDigit, part)
    ensures PartialBare(tag + ("_" + part))
  {
    var s := tag + ("_" + part);
    forall i | 0 <= i < |tag| ensures IsLabelChar(s[i]) { assert s[i] == tag[i]; }
    RunLength(s, IsLabelChar, 12, |tag|);
    assert s[|tag| + 1..] == part;
  }

  /**
   A placeholder that lost its braces is held exactly when it is cut behind its
   underscore: cut inside the label, both halves are let out.
   */
  lemma {:induction false} BareHeldIff(tag: string, suffix: string, n: nat)
    requires IsLabel(tag) && IsSuffix(suffix) && 0 < n < |tag| + 7
    ensures Hold((tag + ("_" + suffix))[..n], Partial) == (if n > |tag| then 0 else n)
  {
    var s := tag + ("_" + suffix);
    var p := s[..n];
    if n > |tag| {
      var part := suffix[..n - |tag| - 1];
      assert p == tag + ("_" + part);
      assert All(IsLowerOrDigit, part);
      BarePartial(tag, part);
      BareShape(p);
      assert All(IsAscii, p) && p[0..] == p;
      AsciiSize(p);
    } else {
      assert p == tag[..n] && All(IsLabelChar, p);
      LabelsNotPartial(p);
      assert p[n..] == "";
    }
  }

  // The cap is shorter than the longest partial match, because white space may take three bytes.

  lemma {:induction false} SizeConcat(a: string, b: string)
    ensures Utf8Size(a + b) == Utf8Size(a) + Utf8Size(b)
  {
    if a == [] { assert a + b == b; }
    else { assert (a + b)[1..] == a[1..] + b; SizeConcat(a[1..], b); }
  }

  /** A run of a class whose characters take at most k bytes. */
  lemma {:induction false} RunSize(s: string, p: char -> bool, max: nat, k: nat)
    requires forall c :: p(c) ==> Utf8Len(c) <= k
    ensures Utf8Size(s) <= max * k + Utf8Size(s[Run(s, p, max)..])
    decreases max
  {
    if max > 0 && s != [] && p(s[0]) {
      RunSize(s[1..], p, max - 1, k);
      assert s[1..][Run(s[1..], p, max - 1)..] == s[Run(s, p, max)..];
      assert max * k == (max - 1) * k + k;
    } else {
      assert s[0..] == s;
    }
  }

  lemma {:induction false} EndSize(s: string)
    requires TailEnd(s)
    ensures Utf8Size(s) <= 7
  {
    var t := s[Run(s, IsBackslash, 3)..];
    var u := if t != [] && t[0] == '}' then t[1..] else t;
    RunSize(s, IsBackslash, 3, 1);
    RunSize(u, IsBackslash, 3, 1);
    assert Utf8Size(u[|u|..]) == 0;
  }

  lemma {:induction false} WhiteSize(s: string)
    ensures Utf8Size(s) <= 12 + Utf8Size(s[Run(s, IsWhite, 4)..])
  {
    RunSize(s, IsWhite, 4, 3);
  }

  lemma {:induction false} WordSize(s: string)
    ensures Utf8Size(s) <= 20 + Utf8Size(s[Run(s, IsWordChar, 20)..])
  {
    RunSize(s, IsWordChar, 20, 1);
  }

  lemma {:induction false} TailSize(s: string)
    requires PartialTail(s)
    ensures Utf8Size(s) <= 51
  {
    var t := s[Run(s, IsWhite, 4)..];
    var u := t[Run(t, IsWordChar, 20)..];
    WhiteSize(s);
    WordSize(t);
    WhiteSize(u);
    EndSize(u[Run(u, IsWhite, 4)..]);
  }

  lemma {:induction false} GroupSize(s: string)
    requires Group(s, '{') > 0
    ensures Utf8Size(s) <= 4 + Utf8Size(s[Group(s, '{')..])
  {
    var b := Run(s, IsBackslash, 3);
    RunSize(s, IsBackslash, 3, 1);
    assert s[b..][1..] == s[b + 1..];
  }

  lemma {:induction false} OpenersSize(s: string, k: nat)
    ensures Utf8Size(s) <= 4 * k + Utf8Size(s[Openers(s, k)..])
    decreases k
  {
    var g := Group(s, '{');
    if k == 0 || g == 0 {
      NoOpeners(s, k);
    } else {
      OpenersSize(s[g..], k - 1);
      MoreOpeners(s, k);
    }
  }

  lemma {:induction false} NoOpeners(s: string, k: nat)
    requires k == 0 || Group(s, '{') == 0
    ensures s[Openers(s, k)..] == s
  {
  }

  lemma {:induction false} MoreOpeners(s: string, k: nat)
    requires k > 0 && Group(s, '{') > 0
    ensures var rest := s[Group(s, '{')..];
            Utf8Size(s) <= 4 + Utf8Size(rest) && s[Openers(s, k)..] == rest[Openers(rest, k - 1)..]
  {
    GroupSize(s);
    DropDrop(s, Group(s, '{'), Openers(s[Group(s, '{')..], k - 1));
  }

  /** No partial match takes more than 63 bytes. */
  lemma {:induction false} PartialBound(s: string)
    requires Partial(s)
    ensures Utf8Size(s) <= 63
  {
    if PartialBraced(s) {
      var k := AtMost(3, s);
      OpenersSize(s, k);
      TailSize(s[Openers(s, k)..]);
    } else if PartialBare(s) {
      BareShape(s);
      assert All(IsAscii, s);
      AsciiSize(s);
    } else {
      assert All(IsAscii, s);
      AsciiSize(s);
    }
  }

  /** Three escaped braces, and an escaped closing brace with an escape behind it. */
  const OPENERS: string := "\\\\\\{\\\\\\{\\\\\\{"
  const ENDING: string := "\\\\\\}\\\\\\"

  /** Four white characters of three bytes each. */
  ghost predicate Wide(w: string) { |w| == 4 && All(IsWhite, w) && Utf8Size(w) == 12 }

  lemma {:induction false} IdeographicSpacesWide()
    ensures Wide("\U{3000}\U{3000}\U{3000}\U{3000}")
  {
    var two := "\U{3000}\U{3000}";
    assert two[1..] == "\U{3000}" && "\U{3000}"[1..] == "";
    assert Utf8Size("\U{3000}") == 3;
    SizeConcat(two, two);
  }

  lemma {:induction false} EndingIs()
    ensures TailEnd(ENDING) && ENDING != "" && !IsWhite(ENDING[0])
  {
    var t := ENDING[3..];
    assert t[1..] == "\\\\\\";
    RunLength(ENDING, IsBackslash, 3, 3);
    RunLength(t[1..], IsBackslash, 3, 3);
  }

  lemma {:induction false} LongTail(wide: string, word: string, ending: string)
    requires Wide(wide) && |word| == 20 && All(IsWordChar, word) && TailEnd(ending) && ending != "" && !IsWhite(ending[0])
    ensures PartialTail(wide + (word + (wide + ending)))
  {
    var s, t, u := wide + (word + (wide + ending)), word + (wide + ending), wide + ending;
    RunLength(s, IsWhite, 4, 4);
    assert s[4..] == t;
    RunLength(t, IsWordChar, 20, 20);
    assert t[20..] == u;
    RunLength(u, IsWhite, 4, 4);
    assert u[4..] == ending;
  }

  lemma {:induction false} LongOpeners(rest: string)
    ensures Openers(OPENERS + rest, 3) == 12
  {
    var s := OPENERS + rest;
    var a, b := s[4..], s[4..][4..];
    assert b[4..] == rest;
    RunLength(s, IsBackslash, 3, 3);
    RunLength(a, IsBackslash, 3, 3);
    RunLength(b, IsBackslash, 3, 3);
    assert Group(s, '{') == 4 && Group(a, '{') == 4 && Group(b, '{') == 4;
    assert Openers(rest, 0) == 0 && Openers(b, 1) == 4 && Openers(a, 2) == 8;
  }

  lemma {:induction false} LongSize(wide: string, word: string)
    requires Wide(wide) && |word| == 20 && All(IsWordChar, word)
    ensures Utf8Size(OPENERS + (wide + (word + (wide + ENDING)))) == 63
  {
    EscapesSize();
    assert All(IsAscii, word);
    AsciiSize(word);
    SizeConcat(wide, ENDING);
    SizeConcat(word, wide + ENDING);
    SizeConcat(wide, word + (wide + ENDING));
    SizeConcat(OPENERS, wide + (word + (wide + ENDING)));
  }

  lemma {:induction false} EscapesSize()
    ensures Utf8Size(OPENERS) == 12 && Utf8Size(ENDING) == 7
  {
    assert All(IsAscii, OPENERS) && All(IsAscii, ENDING);
    AsciiSize(OPENERS);
    AsciiSize(ENDING);
  }

  /** There are such matches, of exactly 63 bytes, and they are let out: the cap of 48 bytes does not cover them. */
  lemma {:induction false} LongPartialLetOut(wide: string, word: string)
    requires Wide(wide) && |word| == 20 && All(IsWordChar, word)
    ensures var s := OPENERS + (wide + (word + (wide + ENDING)));
            Partial(s) && Utf8Size(s) == 63 && Hold(s, Partial) == |s|
  {
    var tail := wide + (word + (wide + ENDING));
    var s := OPENERS + tail;
    EndingIs();
    LongTail(wide, word, ENDING);
    LongOpeners(tail);
    Seam(OPENERS, tail);
    LongSize(wide, word);
    assert AtMost(3, s) == 3 && PartialBraced(s);
    Whole(s);
    assert FirstMatch(s, Partial) == 0;
  }

  // ------------------------------------------------- a placeholder cut by a terminal event

  function Restoring(r: Resolver): string -> string { s => RestoreFinal(s, r) }

  /** The text before a flush, the flush that comes ahead of a terminal event, and the event's own text. */
  function Around(a: string, b: string): seq<Event> { [Delta(a, false), Flush, Delta(b, true)] }

  lemma {:induction false} CutHeld(tag: string, suffix: string, n: nat)
    requires IsLabel(tag) && IsSuffix(suffix) && 0 < n < |tag| + 11
    ensures Hold(Token(tag, suffix)[..n], Partial) == 0
  {
    var p := Token(tag, suffix)[..n];
    PrefixIsPartial(tag, suffix, n);
    assert CutToken(p) && p[0..] == p;
    CutTokenPartial(p);
    AsciiSize(p);
  }

  /** What is held is flushed by itself. */
  lemma {:induction false} OutputAround(a: string, b: string, f: string -> string)
    requires Hold(a, Partial) == 0 && f("") == ""
    ensures Output("", Around(a, b), Partial, f) == f(a) + f(b)
  {
    var es := Around(a, b);
    assert "" + a == a && a[0..] == a && a[..0] == "";
    assert es[1..] == [Flush, Delta(b, true)] && es[1..][1..] == [Delta(b, true)] && es[1..][1..][1..] == [];
    assert a + "" == a && "" + b == b;
    assert Output("", [Delta(b, true)], Partial, f) == f(b) + "";
    assert Output(a, es[1..], Partial, f) == f(a) + f(b);
  }

  lemma {:induction false} RestoreNothing(r: Resolver)
    ensures RestoreFinal("", r) == ""
  {
    SparseNotLive("", r);
    NothingLiveIdle("", r);
  }

  /**
   A live placeholder that a terminal event cuts: the halves are restored apart, and where
   nothing in either half is live the client reads the placeholder, not the original.
   */
  lemma {:induction false} TerminalNotJoined(tag: string, suffix: string, n: nat, w: string, r: Resolver)
    requires IsLabel(tag) && IsSuffix(suffix) && 0 < n < |tag| + 11
    requires r.Found(Token(tag, suffix)) == Some(w) && BraceFree(w) && '_' !in w
    ensures var t, f := Token(tag, suffix), Restoring(r);
            && f(t) == w != t && Output("", Around(t[..n], t[n..]), Partial, f) == f(t[..n]) + f(t[n..])
            && (NothingLive(t[..n], r) && NothingLive(t[n..], r) ==> Output("", Around(t[..n], t[n..]), Partial, f) == t)
  {
    var t := Token(tag, suffix);
    OneToken(tag, suffix, w, r);
    assert t[0] == '{';
    CutHeld(tag, suffix, n);
    RestoreNothing(r);
    OutputAround(t[..n], t[n..], Restoring(r));
    if NothingLive(t[..n], r) && NothingLive(t[n..], r) {
      NothingLiveIdle(t[..n], r);
      NothingLiveIdle(t[n..], r);
      Halves(t, n);
    }
  }

  /** So it is with every live placeholder that is cut inside its suffix. */
  lemma {:induction false} SuffixCutLost(tag: string, suffix: string, n: nat, w: string, r: Resolver)
    requires IsLabel(tag) && IsSuffix(suffix) && |tag| + 3 <= n < |tag| + 9
    requires r.Found(Token(tag, suffix)) == Some(w) && BraceFree(w) && '_' !in w
    ensures var t := Token(tag, suffix);
            Output("", Around(t[..n], t[n..]), Partial, Restoring(r)) == t && Restoring(r)(t) != t
  {
    var t := Token(tag, suffix);
    forall i | 0 <= i < |t| && i != |tag| + 2 ensures t[i] != '_' {
      if 2 <= i < |tag| + 2 { assert t[i] == tag[i - 2]; }
      if |tag| + 3 <= i < |tag| + 9 { assert t[i] == suffix[i - |tag| - 3]; }
    }
    assert Sparse(t[..n]) && Sparse(t[n..]);
    SparseNotLive(t[..n], r);
    SparseNotLive(t[n..], r);
    TerminalNotJoined(tag, suffix, n, w, r);
  }
}
