/**
 The mask side of src/mask/engine.rs: a sequence of rules, each an arbitrary producer
 of ascending disjoint matches, whose values are replaced by placeholders without
 ever cutting a placeholder that is already there; and the text round trip.
 */
module Masking {
  import opened Wrappers
  import opened Seqs
  import opened Placeholders
  import opened Codec
  import opened Restore

  // ------------------------------------------------------------------ candidates

  /** A match [start, end), the value group [from, to) inside it, and the original its token is issued for. */
  datatype Cand = Cand(start: nat, end: nat, from: nat, to: nat, key: string)

  type Span = (nat, nat)

  /** What `find_iter` can yield on a text of n characters. */
  predicate Ascending(cs: seq<Cand>, n: nat) {
    && (forall i :: 0 <= i < |cs| ==> cs[i].start <= cs[i].from <= cs[i].to <= cs[i].end <= n)
    && (forall i, j :: 0 <= i < j < |cs| ==> cs[i].end <= cs[j].start)
  }

  predicate SortedSpans(phs: seq<Span>) {
    && (forall i :: 0 <= i < |phs| ==> phs[i].0 < phs[i].1)
    && (forall i, j :: 0 <= i < j < |phs| ==> phs[i].1 <= phs[j].0)
  }

  predicate Overlap(c: Cand, ph: Span) { c.start < ph.1 && c.end > ph.0 }

  /** The all-pairs check: c touches none of the spans. */
  predicate Clear(c: Cand, phs: seq<Span>) { forall k :: 0 <= k < |phs| ==> !Overlap(c, phs[k]) }

  predicate Contained(c: Cand, phs: seq<Span>) {
    exists k :: 0 <= k < |phs| && phs[k].0 <= c.start && c.end <= phs[k].1
  }

  /** A pattern: the length of its match at the head of a text, 0 if it does not match there. */
  type Matcher = m: string -> nat | forall t :: m(t) <= |t| witness (_ => 0)

  /** `find_iter`: the matches in s from position i on. */
  function SpansBy(s: string, i: nat, m: Matcher): seq<Span>
    requires i <= |s|
    decreases |s| - i
  {
    if i == |s| then []
    else
      var n := m(s[i..]);
      assert n <= |s[i..]|;
      if n > 0 then [(i, i + n)] + SpansBy(s, i + n, m) else SpansBy(s, i + 1, m)
  }

  lemma {:induction false} SpansSorted(s: string, i: nat, m: Matcher)
    requires i <= |s|
    ensures SortedSpans(SpansBy(s, i, m)) && forall k :: 0 <= k < |SpansBy(s, i, m)| ==> i <= SpansBy(s, i, m)[k].0
    decreases |s| - i
  {
    if i < |s| {
      var n := m(s[i..]);
      assert n <= |s[i..]|;
      SpansSorted(s, if n > 0 then i + n else i + 1, m);
    }
  }

  /** The strict placeholders of s. */
  function StrictSpans(s: string): (phs: seq<Span>)
    ensures SortedSpans(phs)
  {
    SpansSorted(s, 0, StrictLen);
    SpansBy(s, 0, StrictLen)
  }

  // ----------------------------------------------------------- the two overlap tests

  function KeepClear(cs: seq<Cand>, phs: seq<Span>): seq<Cand> {
    if cs == [] then []
    else (if Clear(cs[0], phs) then [cs[0]] else []) + KeepClear(cs[1..], phs)
  }

  lemma {:induction false} KeepClearSnoc(cs: seq<Cand>, c: Cand, phs: seq<Span>)
    ensures KeepClear(cs + [c], phs) == KeepClear(cs, phs) + (if Clear(c, phs) then [c] else [])
  {
    if cs == [] {
      assert [] + [c] == [c];
      assert [c][1..] == [];
    } else {
      assert (cs + [c])[1..] == cs[1..] + [c];
      KeepClearSnoc(cs[1..], c, phs);
    }
  }

  /** The cursor that only moves forward decides exactly what the all-pairs check decides. */
  method KeepByCursor(cs: seq<Cand>, phs: seq<Span>, n: nat) returns (kept: seq<Cand>)
    requires Ascending(cs, n) && SortedSpans(phs)
    ensures kept == KeepClear(cs, phs)
  {
    kept := [];
    var cur := 0;
    for i := 0 to |cs|
      invariant cur <= |phs|
      invariant forall k, j :: 0 <= k < cur && i <= j < |cs| ==> phs[k].1 <= cs[j].start
      invariant kept == KeepClear(cs[..i], phs)
    {
      while cur < |phs| && phs[cur].1 <= cs[i].start
        invariant cur <= |phs|
        invariant forall k, j :: 0 <= k < cur && i <= j < |cs| ==> phs[k].1 <= cs[j].start
      {
        cur := cur + 1;
      }
      assert cs[..i + 1] == cs[..i] + [cs[i]];
      KeepClearSnoc(cs[..i], cs[i], phs);
      if cur < |phs| && Overlap(cs[i], phs[cur]) {
        assert !Clear(cs[i], phs);
      } else {
        assert Clear(cs[i], phs);
        kept := kept + [cs[i]];
      }
    }
    assert cs[..|cs|] == cs;
  }

  /** overlaps_any: a binary search for the last span that begins at or before start. */
  method OverlapsAny(phs: seq<Span>, c: Cand) returns (b: bool)
    requires SortedSpans(phs)
    ensures b == Contained(c, phs)
  {
    var lo, hi := 0, |phs|;
    while lo < hi
      invariant lo <= hi <= |phs|
      invariant forall k :: 0 <= k < lo ==> phs[k].0 <= c.start
      invariant forall k :: hi <= k < |phs| ==> phs[k].0 > c.start
    {
      var mid := (lo + hi) / 2;
      if phs[mid].0 <= c.start { lo := mid + 1; } else { hi := mid; }
    }
    b := lo > 0 && c.start >= phs[lo - 1].0 && c.end <= phs[lo - 1].1;
    if Contained(c, phs) {
      var k :| 0 <= k < |phs| && phs[k].0 <= c.start && c.end <= phs[k].1;
      assert k < lo;
      if k < lo - 1 { assert phs[k].1 <= phs[lo - 1].0; }
    }
  }

  lemma {:induction false} SpansCons(s: string, i: nat, m: Matcher)
    requires i < |s| && m(s[i..]) > 0
    ensures i + m(s[i..]) <= |s| && SpansBy(s, i, m) == [(i, i + m(s[i..]))] + SpansBy(s, i + m(s[i..]), m)
  {
    assert m(s[i..]) <= |s[i..]|;
  }

  lemma {:induction false} SpanAt(s: string, i: nat, m: Matcher, k: nat)
    requires i <= |s| && k < |SpansBy(s, i, m)|
    ensures var ph := SpansBy(s, i, m)[k];
            i <= ph.0 < ph.1 <= |s| && m(s[ph.0..]) == ph.1 - ph.0
    decreases |s| - i
  {
    var n := m(s[i..]);
    if n == 0 {
      SpanAt(s, i + 1, m, k);
    } else {
      SpansCons(s, i, m);
      if k > 0 { SpanAt(s, i + n, m, k - 1); }
    }
  }

  lemma {:induction false} StrictEnds(s: string)
    requires StrictLen(s) > 0
    ensures s[0] == '{' && s[1] == '{' && IsLabelChar(s[2]) && s[StrictLen(s) - 1] == '}' && StrictLen(s) >= 12
    ensures '{' !in s[2..StrictLen(s)]
  {
    var l := Run(s[2..], IsLabelChar, 12);
    RunAll(s[2..], IsLabelChar, 12);
    var t := s[2..StrictLen(s)];
    assert forall i :: 0 <= i < l ==> t[i] == s[2..][..l][i];
    assert s[2] == s[2..][..l][0];
    assert forall i :: l < i < l + 7 ==> t[i] == s[l + 3..l + 9][i - l - 1];
    forall i | 0 <= i < |t| ensures t[i] != '{' {
      if i < l { assert IsLabelChar(t[i]); }
    }
  }

  /** A strict placeholder begins and ends with a brace. */
  lemma {:induction false} SpanEnds(text: string, k: nat)
    requires k < |StrictSpans(text)|
    ensures var ph := StrictSpans(text)[k];
            ph.0 < ph.1 <= |text| && text[ph.0] == '{' && text[ph.1 - 1] == '}'
  {
    SpanAt(text, 0, StrictLen, k);
    var ph := StrictSpans(text)[k];
    BraceEnds(text, ph.0, ph.1);
  }

  lemma {:induction false} BraceEnds(text: string, i: nat, j: nat)
    requires i < j <= |text| && StrictLen(text[i..]) == j - i
    ensures text[i] == '{' && text[j - 1] == '}'
  {
    StrictEnds(text[i..]);
  }

  // ------------------------------------------------ which words can cut a placeholder

  /** The word laid over a text with its first character at i agrees with it where both are. */
  predicate Agrees(w: string, p: string, i: int) { forall k :: 0 <= k < |w| && 0 <= i + k < |p| ==> w[k] == p[i + k] }

  /** Laid over some placeholder, the word fits, reaches into it and sticks out. */
  ghost predicate EdgeWord(w: string) {
    exists tag, suffix, i :: IsLabel(tag) && IsSuffix(suffix) && OnEdge(w, Token(tag, suffix), i)
  }

  ghost predicate OnEdge(w: string, p: string, i: int) {
    -|w| < i < |p| && (i < 0 || i + |w| > |p|) && Agrees(w, p, i)
  }

  /** A match of w in the text that touches a placeholder and is not rejected, so that the placeholder is cut. */
  ghost predicate CutBy(w: string, text: string, c: Cand) {
    && c.start < c.end <= |text| && text[c.start..c.end] == w
    && !Clear(c, StrictSpans(text)) && !Contained(c, StrictSpans(text))
  }

  lemma {:induction false} StrictIsToken(s: string) returns (tag: string, suffix: string)
    requires StrictLen(s) > 0
    ensures IsLabel(tag) && IsSuffix(suffix) && StrictLen(s) == |tag| + 11 && s[..StrictLen(s)] == Token(tag, suffix)
  {
    var l := Run(s[2..], IsLabelChar, 12);
    RunAll(s[2..], IsLabelChar, 12);
    tag, suffix := s[2..][..l], s[l + 3..l + 9];
    var n := l + 11;
    assert s[..n] == s[..2] + s[2..2 + l] + [s[l + 2]] + s[l + 3..l + 9] + s[l + 9..n];
    assert s[..2] == "{{" && s[2..2 + l] == tag && s[l + 9..n] == "}}";
  }

  lemma {:induction false} StrictToken(s: string, tag: string, suffix: string)
    requires TokenAt(s, tag, suffix)
    ensures StrictLen(s) == |tag| + 11
  {
    var t := s[2..];
    assert forall i :: 0 <= i < |tag| ==> t[i] == t[..|tag|][i];
    RunLength(t, IsLabelChar, 12, |tag|);
    assert s[|tag| + 3..|tag| + 9] == t[|tag| + 1..|tag| + 7];
  }

  lemma {:induction false} TokenIsStrict(tag: string, suffix: string, rest: string)
    requires IsLabel(tag) && IsSuffix(suffix)
    ensures StrictLen(Token(tag, suffix) + rest) == |tag| + 11
  {
    TokenIsAt(tag, suffix, rest);
    StrictToken(Token(tag, suffix) + rest, tag, suffix);
  }

  lemma {:induction false} SpanToken(text: string, k: nat) returns (tag: string, suffix: string)
    requires k < |StrictSpans(text)|
    ensures var ph := StrictSpans(text)[k];
            ph.0 < ph.1 <= |text| && IsLabel(tag) && IsSuffix(suffix) && text[ph.0..ph.1] == Token(tag, suffix)
  {
    SpanAt(text, 0, StrictLen, k);
    var ph := StrictSpans(text)[k];
    tag, suffix := TokenBetween(text, ph.0, ph.1);
  }

  lemma {:induction false} TokenBetween(text: string, i: nat, j: nat) returns (tag: string, suffix: string)
    requires i < j <= |text| && StrictLen(text[i..]) == j - i
    ensures IsLabel(tag) && IsSuffix(suffix) && text[i..j] == Token(tag, suffix)
  {
    tag, suffix := StrictIsToken(text[i..]);
    assert text[i..][..j - i] == text[i..j];
  }

  /** A match and a placeholder it overlaps agree where both are. */
  lemma {:induction false} OverlapAgrees(w: string, text: string, c: Cand, k: nat) returns (tag: string, suffix: string)
    requires c.start <= c.end <= |text| && text[c.start..c.end] == w && k < |StrictSpans(text)|
    ensures var ph, p := StrictSpans(text)[k], Token(tag, suffix);
            && IsLabel(tag) && IsSuffix(suffix) && |p| == ph.1 - ph.0 && Agrees(w, p, c.start - ph.0)
  {
    tag, suffix := SpanToken(text, k);
    var ph := StrictSpans(text)[k];
    var p, i := Token(tag, suffix), c.start - ph.0;
    forall j | 0 <= j < |w| && 0 <= i + j < |p| ensures w[j] == p[i + j] {
      assert w[j] == text[c.start..c.end][j] == text[c.start + j];
      assert p[i + j] == text[ph.0..ph.1][i + j] == text[c.start + j];
    }
  }

  lemma {:induction false} CutIsEdge(w: string, text: string, c: Cand)
    requires CutBy(w, text, c)
    ensures EdgeWord(w)
  {
    var phs := StrictSpans(text);
    var k :| 0 <= k < |phs| && Overlap(c, phs[k]);
    var tag, suffix := OverlapAgrees(w, text, c, k);
    assert !(phs[k].0 <= c.start && c.end <= phs[k].1);
    assert |w| == c.end - c.start;
    assert OnEdge(w, Token(tag, suffix), c.start - phs[k].0);
  }

  /** Two placeholders do not overlap: only the first two characters are opening braces. */
  lemma {:induction false} NoneInside(text: string, a: nat, b: nat)
    requires a < b < |text| && StrictLen(text[a..]) > 0 && StrictLen(text[b..]) > 0
    ensures a + StrictLen(text[a..]) <= b
  {
    var s, n, k := text[a..], StrictLen(text[a..]), b - a;
    StrictEnds(s);
    StrictEnds(text[b..]);
    assert text[b..][0] == s[k] && text[b..][1] == s[k + 1];
    InSlice(s, k, 2, n);
    InSlice(s, k + 1, 2, n);
  }

  /** So the scan finds every one. */
  lemma {:induction false} EveryMatch(text: string, i: nat, b: nat, m: Matcher, len: nat) returns (k: nat)
    requires i <= b < |text| && m(text[b..]) == len > 0
    requires forall a :: i <= a < b && m(text[a..]) > 0 ==> a + m(text[a..]) <= b
    ensures k < |SpansBy(text, i, m)| && SpansBy(text, i, m)[k] == (b, b + len)
    decreases b - i
  {
    var n := m(text[i..]);
    if n == 0 {
      k := EveryMatch(text, i + 1, b, m, len);
    } else {
      SpansCons(text, i, m);
      k := 0;
      if i < b {
        k := EveryMatch(text, i + n, b, m, len);
        k := k + 1;
      }
    }
  }

  lemma {:induction false} NoneReaches(text: string, b: nat)
    requires b < |text| && StrictLen(text[b..]) > 0
    ensures forall a :: 0 <= a < b && StrictLen(text[a..]) > 0 ==> a + StrictLen(text[a..]) <= b
  {
    forall a | 0 <= a < b && StrictLen(text[a..]) > 0 ensures a + StrictLen(text[a..]) <= b { NoneInside(text, a, b); }
  }

  lemma {:induction false} EveryFound(text: string, b: nat, len: nat) returns (k: nat)
    requires b < |text| && StrictLen(text[b..]) == len > 0
    ensures k < |StrictSpans(text)| && StrictSpans(text)[k] == (b, b + len)
  {
    NoneReaches(text, b);
    k := EveryMatch(text, 0, b, StrictLen, len);
  }

  /** The text in which the word lies over the placeholder that way. */
  function Overlaid(w: string, p: string, i: int): string
    requires -|w| < i < |p|
  {
    (if i < 0 then w[..-i] else "") + (p + (if i + |w| > |p| then w[|p| - i..] else ""))
  }

  lemma {:induction false} LaidAt(w: string, p: string, i: int)
    requires -|w| < i < |p| && Agrees(w, p, i)
    ensures var text, start := Overlaid(w, p, i), if i < 0 then 0 else i;
            start + |w| <= |text| && text[start..start + |w|] == w
  {
    var text, start := Overlaid(w, p, i), if i < 0 then 0 else i;
    var head := if i < 0 then w[..-i] else "";
    assert start == |head| + i;
    forall k | 0 <= k < |w| ensures text[start + k] == w[k] {
      if i + k < 0 { assert text[start + k] == head[k]; }
      else if i + k < |p| { assert text[start + k] == p[i + k]; }
      else { assert text[start + k] == w[|p| - i..][i + k - |p|]; }
    }
  }

  lemma {:induction false} EdgeIsCut(w: string) returns (text: string, c: Cand)
    requires EdgeWord(w)
    ensures CutBy(w, text, c)
  {
    var tag, suffix, i :| IsLabel(tag) && IsSuffix(suffix) && OnEdge(w, Token(tag, suffix), i);
    text, c := LaidIsCut(w, tag, suffix, i);
  }

  lemma {:induction false} LaidIsCut(w: string, tag: string, suffix: string, i: int) returns (text: string, c: Cand)
    requires IsLabel(tag) && IsSuffix(suffix) && OnEdge(w, Token(tag, suffix), i)
    ensures CutBy(w, text, c)
  {
    var p := Token(tag, suffix);
    var h := if i < 0 then -i else 0;
    text := Overlaid(w, p, i);
    c := Cand(h + i, h + i + |w|, h + i, h + i + |w|, w);
    LaidAt(w, p, i);
    var k := OverlaidSpan(w, tag, suffix, i, h);
    OnlyOne(StrictSpans(text), k, c);
  }

  lemma {:induction false} OverlaidSpan(w: string, tag: string, suffix: string, i: int, h: nat) returns (k: nat)
    requires IsLabel(tag) && IsSuffix(suffix) && -|w| < i < |Token(tag, suffix)| && h == if i < 0 then -i else 0
    ensures var text := Overlaid(w, Token(tag, suffix), i);
            k < |StrictSpans(text)| && StrictSpans(text)[k] == (h, h + |Token(tag, suffix)|)
  {
    var p := Token(tag, suffix);
    var text := Overlaid(w, p, i);
    var rest := if i + |w| > |p| then w[|p| - i..] else "";
    assert text[h..] == p + rest;
    TokenIsStrict(tag, suffix, rest);
    k := EveryFound(text, h, |p|);
  }

  /** A match that reaches into a span and sticks out of it lies in none. */
  lemma {:induction false} OnlyOne(phs: seq<Span>, k: nat, c: Cand)
    requires SortedSpans(phs) && k < |phs| && Overlap(c, phs[k]) && !(phs[k].0 <= c.start && c.end <= phs[k].1)
    ensures !Clear(c, phs) && !Contained(c, phs)
  {
    forall j | 0 <= j < |phs| ensures !(phs[j].0 <= c.start && c.end <= phs[j].1) {
      if j < k { assert phs[j].1 <= phs[k].0; } else if j > k { assert phs[k].1 <= phs[j].0; }
    }
  }

  /**
   Exactly the words that fit over the edge of some placeholder can cut one, because
   overlaps_any rejects a match only if it lies in a placeholder altogether.
   */
  lemma {:induction false} CutIffEdge(w: string)
    ensures (exists text, c :: CutBy(w, text, c)) <==> EdgeWord(w)
  {
    if text, c :| CutBy(w, text, c) { CutIsEdge(w, text, c); }
    if EdgeWord(w) {
      var text, c := EdgeIsCut(w);
      assert CutBy(w, text, c);
    }
  }

  /** For any other word the test loses nothing: lying in a placeholder and touching one are the same. */
  lemma {:induction false} NoEdgeContained(text: string, c: Cand)
    requires c.start < c.end <= |text| && !EdgeWord(text[c.start..c.end])
    ensures Contained(c, StrictSpans(text)) <==> !Clear(c, StrictSpans(text))
  {
    var phs, w := StrictSpans(text), text[c.start..c.end];
    if Contained(c, phs) {
      var k :| 0 <= k < |phs| && phs[k].0 <= c.start && c.end <= phs[k].1;
      assert Overlap(c, phs[k]);
    } else if !Clear(c, phs) {
      CutIsEdge(w, text, c);
    }
  }

  lemma {:induction false} EdgeHasBrace(w: string, p: string, i: int)
    requires OnEdge(w, p, i) && p != "" && p[0] == '{' && p[|p| - 1] == '}'
    ensures !BraceFree(w)
  {
    var k := if i < 0 then -i else |p| - 1 - i;
    assert w[k] == p[i + k];
  }

  /** Words without braces are such words. */
  lemma {:induction false} BraceFreeNoEdge(w: string)
    requires BraceFree(w)
    ensures !EdgeWord(w)
  {
    if tag, suffix, i :| IsLabel(tag) && IsSuffix(suffix) && OnEdge(w, Token(tag, suffix), i) {
      EdgeHasBrace(w, Token(tag, suffix), i);
    }
  }

  /** A closing brace and any character behind it: such a word cuts every placeholder it follows. */
  lemma {:induction false} BraceWordCuts(tag: string, suffix: string, x: char)
    requires IsLabel(tag) && IsSuffix(suffix)
    ensures var text, n := Token(tag, suffix) + [x], |tag| + 11;
            var c := Cand(n - 1, n + 1, n - 1, n + 1, ['}', x]);
            && CutBy(['}', x], text, c) && KeepOutside([c], StrictSpans(text)) == [c]
            && StrictLen(text[..n - 1]) == 0
  {
    var p, w := Token(tag, suffix), ['}', x];
    var text, n := p + [x], |tag| + 11;
    var c := Cand(n - 1, n + 1, n - 1, n + 1, w);
    TokenIsStrict(tag, suffix, [x]);
    assert text[0..] == text && text[n - 1..n + 1] == w;
    var k := EveryFound(text, 0, |tag| + 11);
    OnlyOne(StrictSpans(text), k, c);
    assert [c][1..] == [];
    CutIsNone(tag, suffix, text[..n - 1]);
  }

  lemma {:induction false} CutIsNone(tag: string, suffix: string, s: string)
    requires IsLabel(tag) && IsSuffix(suffix) && s == Token(tag, suffix)[..|tag| + 10]
    ensures StrictLen(s) == 0
  {
    var t := s[2..];
    assert forall i :: 0 <= i < |tag| ==> t[i] == tag[i];
    assert t[|tag|] == '_';
    RunLength(t, IsLabelChar, 12, |tag|);
  }

  // ------------------------------------------------------------------------ splice

  /** A span to replace and the placeholder to put there. */
  datatype Edit = Edit(start: nat, end: nat, put: string)

  predicate EditsIn(edits: seq<Edit>, n: nat) {
    forall i :: 0 <= i < |edits| ==> edits[i].start <= edits[i].end <= n
  }

  /** splice_spans from position `last` on; an edit that starts before `last` is passed over. */
  function Splice(text: string, last: nat, edits: seq<Edit>): string
    requires last <= |text| && EditsIn(edits, |text|)
    decreases |edits|
  {
    if edits == [] then text[last..]
    else if edits[0].start < last then Splice(text, last, edits[1..])
    else text[last..edits[0].start] + edits[0].put + Splice(text, edits[0].end, edits[1..])
  }

  method SpliceSpans(text: string, edits: seq<Edit>) returns (out: string)
    requires EditsIn(edits, |text|)
    ensures out == Splice(text, 0, edits)
  {
    out := "";
    var last := 0;
    Whole(edits);
    for i := 0 to |edits|
      invariant 0 <= last <= |text|
      invariant Splice(text, 0, edits) == out + Splice(text, last, edits[i..])
    {
      var e := edits[i];
      assert edits[i..][0] == e && edits[i..][1..] == edits[i + 1..];
      if e.start >= last {
        Assoc(out, text[last..e.start] + e.put, Splice(text, e.end, edits[i + 1..]));
        out := out + (text[last..e.start] + e.put);
        last := e.end;
      }
    }
    out := out + text[last..];
  }

  // ------------------------------------------------------------------------- rules

  /** A rule: any function from the text to the ascending disjoint matches it takes. */
  type Finder = f: string -> seq<Cand> | forall s :: Ascending(f(s), |s|) witness (_ => [])

  /**
   A stage of `mask`. A built-in rule loses the matches that touch a placeholder; a
   custom word loses those that overlaps_any finds in one. The texts that a custom
   expression with look-around finds are replaced one after the other, everywhere and
   without looking at placeholders.
   */
  datatype Stage = Rule(find: Finder) | Words(find: Finder) | Everywhere(texts: string -> seq<string>)

  /** Names of placeholders: what `remember` issues or recalls for an original. */
  type Naming = string -> (string, string)

  function NameToken(names: Naming, key: string): string { Token(names(key).0, names(key).1) }

  function KeepOutside(cs: seq<Cand>, phs: seq<Span>): seq<Cand> {
    if cs == [] then []
    else (if Contained(cs[0], phs) then [] else [cs[0]]) + KeepOutside(cs[1..], phs)
  }

  function Kept(stage: Stage, text: string): (cs: seq<Cand>)
    requires !stage.Everywhere?
    ensures Ascending(cs, |text|)
  {
    var found := stage.find(text);
    var phs := StrictSpans(text);
    assert Ascending(found, |text|);
    KeepClearSome(found, phs, |text|);
    KeepOutsideSome(found, phs, |text|);
    if stage.Rule? then KeepClear(found, phs) else KeepOutside(found, phs)
  }

  lemma {:induction false} ConsAscending(c: Cand, cs: seq<Cand>, rest: seq<Cand>, n: nat)
    requires Ascending([c] + cs, n) && Ascending(rest, n)
    requires forall d :: d in rest ==> d in cs
    ensures Ascending([c] + rest, n)
  {
    forall j | 0 <= j < |rest| ensures c.end <= rest[j].start {
      assert rest[j] in cs;
      var i :| 0 <= i < |cs| && cs[i] == rest[j];
      assert ([c] + cs)[i + 1] == rest[j] && ([c] + cs)[0] == c;
    }
    assert ([c] + cs)[0] == c;
  }

  lemma {:induction false} TailAscending(cs: seq<Cand>, n: nat)
    requires cs != [] && Ascending(cs, n)
    ensures Ascending(cs[1..], n)
  {
  }

  lemma {:induction false} KeepClearSome(cs: seq<Cand>, phs: seq<Span>, n: nat)
    requires Ascending(cs, n)
    ensures Ascending(KeepClear(cs, phs), n)
    ensures forall c :: c in KeepClear(cs, phs) ==> c in cs && Clear(c, phs)
  {
    if cs != [] {
      TailAscending(cs, n);
      KeepClearSome(cs[1..], phs, n);
      assert cs == [cs[0]] + cs[1..];
      ConsAscending(cs[0], cs[1..], KeepClear(cs[1..], phs), n);
    }
  }

  lemma {:induction false} KeepOutsideSome(cs: seq<Cand>, phs: seq<Span>, n: nat)
    requires Ascending(cs, n)
    ensures Ascending(KeepOutside(cs, phs), n)
    ensures forall c :: c in KeepOutside(cs, phs) ==> c in cs && !Contained(c, phs)
  {
    if cs != [] {
      TailAscending(cs, n);
      KeepOutsideSome(cs[1..], phs, n);
      assert cs == [cs[0]] + cs[1..];
      ConsAscending(cs[0], cs[1..], KeepOutside(cs[1..], phs), n);
    }
  }

  /** The text at [i, i + |t|) of the text, as a match. */
  function CandAt(i: nat, t: string): Cand { Cand(i, i + |t|, i, i + |t|, t) }

  predicate OccursAt(text: string, i: nat, t: string) { i + |t| <= |text| && text[i..i + |t|] == t }

  lemma {:induction false} FirstAscending(c: Cand, rest: seq<Cand>, n: nat)
    requires c.start <= c.from <= c.to <= c.end <= n && Ascending(rest, n) && forall d :: d in rest ==> c.end <= d.start
    ensures Ascending([c] + rest, n)
  {
    forall j | 0 <= j < |rest| ensures c.end <= rest[j].start { assert rest[j] in rest; }
  }

  /** What `str::replace` replaces from i on: leftmost, not overlapping; the empty text is found at every place. */
  function Occurrences(text: string, i: nat, t: string): (cs: seq<Cand>)
    requires i <= |text|
    ensures Ascending(cs, |text|)
    ensures forall c :: c in cs ==> i <= c.start && c == CandAt(c.start, t) && OccursAt(text, c.start, t)
    decreases |text| - i
  {
    if OccursAt(text, i, t) then
      var next := if t == "" then i + 1 else i + |t|;
      var rest := if next <= |text| then Occurrences(text, next, t) else [];
      FirstAscending(CandAt(i, t), rest, |text|);
      [CandAt(i, t)] + rest
    else if i < |text| then Occurrences(text, i + 1, t)
    else []
  }

  // What replacing everywhere can do to a placeholder.

  /** Laid over some placeholder, the text fits and reaches into it, or is empty and lies between two of its characters. */
  ghost predicate TouchWord(t: string) {
    exists tag, suffix, i :: IsLabel(tag) && IsSuffix(suffix) && -|t| < i < |Token(tag, suffix)| && Agrees(t, Token(tag, suffix), i)
  }

  /** Replacing t everywhere reaches into a placeholder of the text. */
  ghost predicate Hurts(t: string, text: string) {
    exists c :: c in Occurrences(text, 0, t) && !Clear(c, StrictSpans(text))
  }

  lemma {:induction false} OverlapTouches(t: string, text: string, i: nat, ph: Span, k: nat)
    requires OccursAt(text, i, t) && k < |StrictSpans(text)| && StrictSpans(text)[k] == ph && i < ph.1 && i + |t| > ph.0
    ensures TouchWord(t)
  {
    var tag, suffix := OverlapAgrees(t, text, CandAt(i, t), k);
    assert Agrees(t, Token(tag, suffix), i - ph.0);
  }

  lemma {:induction false} HurtsTouches(t: string, text: string)
    requires Hurts(t, text)
    ensures TouchWord(t)
  {
    var phs := StrictSpans(text);
    var c :| c in Occurrences(text, 0, t) && !Clear(c, phs);
    var k :| 0 <= k < |phs| && Overlap(c, phs[k]);
    OverlapTouches(t, text, c.start, phs[k], k);
  }

  /** Where t occurs, the scan finds it there or something before that is not behind it. */
  lemma {:induction false} SomeOccurrence(text: string, i: nat, t: string, b: nat) returns (c: Cand)
    requires t != "" && i <= b && OccursAt(text, b, t)
    ensures c in Occurrences(text, i, t) && c.start <= b && c == CandAt(c.start, t)
    decreases b - i
  {
    if OccursAt(text, i, t) {
      c := CandAt(i, t);
      assert Occurrences(text, i, t)[0] == c;
    } else {
      c := SomeOccurrence(text, i + 1, t, b);
    }
  }

  lemma {:induction false} LaidHurts(t: string, tag: string, suffix: string, i: int) returns (text: string)
    requires t != "" && IsLabel(tag) && IsSuffix(suffix) && -|t| < i < |Token(tag, suffix)| && Agrees(t, Token(tag, suffix), i)
    ensures Hurts(t, text)
  {
    var p := Token(tag, suffix);
    var h := if i < 0 then -i else 0;
    text := Overlaid(t, p, i);
    LaidAt(t, p, i);
    var k := OverlaidSpan(t, tag, suffix, i, h);
    var c := SomeOccurrence(text, 0, t, h + i);
    assert c.start < h + |p| && c.end > h;
    assert Overlap(c, StrictSpans(text)[k]);
  }

  lemma {:induction false} TouchHurts(t: string) returns (text: string)
    requires t != "" && TouchWord(t)
    ensures Hurts(t, text)
  {
    var tag, suffix, i :| IsLabel(tag) && IsSuffix(suffix) && -|t| < i < |Token(tag, suffix)| && Agrees(t, Token(tag, suffix), i);
    text := LaidHurts(t, tag, suffix, i);
  }

  /** Exactly the texts that fit over some placeholder can hurt one. */
  lemma {:induction false} HurtsIffTouches(t: string)
    requires t != ""
    ensures (exists text :: Hurts(t, text)) <==> TouchWord(t)
  {
    if text :| Hurts(t, text) { HurtsTouches(t, text); }
    if TouchWord(t) { var text := TouchHurts(t); }
  }

  /** A brace-free text with a character that no placeholder holds is none of them. */
  lemma {:induction false} ForeignTouchesNone(t: string, k: nat)
    requires BraceFree(t) && k < |t| && !IsLabelChar(t[k]) && !IsLower(t[k]) && t[k] != '_'
    ensures !TouchWord(t)
  {
    if tag, suffix, i :| IsLabel(tag) && IsSuffix(suffix) && -|t| < i < |Token(tag, suffix)| && Agrees(t, Token(tag, suffix), i) {
      var p := Token(tag, suffix);
      if i < 0 || i + |t| > |p| {
        EdgeHasBrace(t, p, i);
      } else {
        assert t[k] == p[i + k];
        TokenChars(tag, suffix, i + k);
      }
    }
  }

  lemma {:induction false} TokenChars(tag: string, suffix: string, k: nat)
    requires IsLabel(tag) && IsSuffix(suffix) && k < |Token(tag, suffix)|
    ensures var c := Token(tag, suffix)[k]; IsLabelChar(c) || IsLower(c) || c == '_' || c == '{' || c == '}'
  {
    var p := Token(tag, suffix);
    if 2 <= k < |tag| + 2 { assert p[k] == tag[k - 2]; }
    else if |tag| + 3 <= k < |tag| + 9 { assert p[k] == suffix[k - |tag| - 3]; }
  }

  function Edits(cs: seq<Cand>, names: Naming): (es: seq<Edit>)
    ensures |es| == |cs|
    ensures forall i :: 0 <= i < |cs| ==> es[i] == Edit(cs[i].from, cs[i].to, NameToken(names, cs[i].key))
  {
    seq(|cs|, i requires 0 <= i < |cs| => Edit(cs[i].from, cs[i].to, NameToken(names, cs[i].key)))
  }

  function KeysOf(cs: seq<Cand>): (ks: seq<string>)
    ensures |ks| == |cs| && forall i :: 0 <= i < |cs| ==> ks[i] == cs[i].key
  {
    seq(|cs|, i requires 0 <= i < |cs| => cs[i].key)
  }

  /** Every key is spelled as the text it stands for. */
  predicate Exact(cs: seq<Cand>, text: string)
    requires Ascending(cs, |text|)
  {
    forall i :: 0 <= i < |cs| ==> cs[i].key == text[cs[i].from..cs[i].to]
  }

  /** The state of `mask`: the text, the originals hit, and whether each was spelled as its key. */
  datatype Masked = Masked(out: string, hits: seq<string>, exact: bool)

  /** One text replaced everywhere. */
  function TextEdits(text: string, t: string, names: Naming): (es: seq<Edit>)
    ensures EditsIn(es, |text|)
  {
    Edits(Occurrences(text, 0, t), names)
  }

  function TextStep(m: Masked, t: string, names: Naming): Masked {
    Masked(Splice(m.out, 0, TextEdits(m.out, t, names)), m.hits + [t], m.exact)
  }

  function TextSteps(m: Masked, ts: seq<string>, names: Naming): Masked
    decreases |ts|
  {
    if ts == [] then m else TextSteps(TextStep(m, ts[0], names), ts[1..], names)
  }

  function StageStep(m: Masked, stage: Stage, names: Naming): Masked {
    if stage.Everywhere? then TextSteps(m, stage.texts(m.out), names)
    else
      var kept := Kept(stage, m.out);
      Masked(Splice(m.out, 0, Edits(kept, names)), m.hits + KeysOf(kept), m.exact && Exact(kept, m.out))
  }

  function MaskFrom(m: Masked, stages: seq<Stage>, names: Naming): Masked
    decreases |stages|
  {
    if stages == [] then m else MaskFrom(StageStep(m, stages[0], names), stages[1..], names)
  }

  /** `mask` over a whole sequence of stages. */
  function Mask(text: string, stages: seq<Stage>, names: Naming): Masked {
    MaskFrom(Masked(text, [], true), stages, names)
  }

  method KeepOutsideWords(cs: seq<Cand>, phs: seq<Span>) returns (kept: seq<Cand>)
    requires SortedSpans(phs)
    ensures kept == KeepOutside(cs, phs)
  {
    kept := [];
    Whole(cs);
    for i := 0 to |cs|
      invariant KeepOutside(cs, phs) == kept + KeepOutside(cs[i..], phs)
    {
      assert cs[i..][0] == cs[i] && cs[i..][1..] == cs[i + 1..];
      var inside := OverlapsAny(phs, cs[i]);
      Assoc(kept, if inside then [] else [cs[i]], KeepOutside(cs[i + 1..], phs));
      if !inside { kept := kept + [cs[i]]; }
    }
  }

  /** The found texts one after the other, each in the text that the ones before have left. */
  method ReplaceTexts(text: string, hits: seq<string>, ts: seq<string>, names: Naming) returns (out: string, hits': seq<string>)
    ensures var m := TextSteps(Masked(text, hits, true), ts, names); out == m.out && hits' == m.hits
  {
    out, hits' := text, hits;
    ghost var m := Masked(text, hits, true);
    Whole(ts);
    for i := 0 to |ts|
      invariant m.out == out && m.hits == hits'
      invariant TextSteps(Masked(text, hits, true), ts, names) == TextSteps(m, ts[i..], names)
    {
      assert ts[i..][0] == ts[i] && ts[i..][1..] == ts[i + 1..];
      m := TextStep(m, ts[i], names);
      out := SpliceSpans(out, TextEdits(out, ts[i], names));
      hits' := hits' + [ts[i]];
    }
  }

  /** Whether the text was spelled as its keys so far makes no difference to what comes. */
  lemma {:induction false} TextStepsApart(m: Masked, ts: seq<string>, names: Naming)
    ensures TextSteps(m, ts, names) == TextSteps(Masked(m.out, m.hits, true), ts, names).(exact := m.exact)
    decreases |ts|
  {
    if ts != [] {
      TextStepsApart(TextStep(m, ts[0], names), ts[1..], names);
      TextStepsApart(TextStep(Masked(m.out, m.hits, true), ts[0], names), ts[1..], names);
    }
  }

  method MaskText(text: string, stages: seq<Stage>, names: Naming) returns (out: string, hits: seq<string>)
    ensures out == Mask(text, stages, names).out && hits == Mask(text, stages, names).hits
  {
    out, hits := text, [];
    ghost var m := Masked(text, [], true);
    Whole(stages);
    for i := 0 to |stages|
      invariant m.out == out && m.hits == hits
      invariant Mask(text, stages, names) == MaskFrom(m, stages[i..], names)
    {
      assert stages[i..][0] == stages[i] && stages[i..][1..] == stages[i + 1..];
      var step := stages[i];
      if step.Everywhere? {
        TextStepsApart(m, step.texts(out), names);
        m := StageStep(m, step, names);
        out, hits := ReplaceTexts(out, hits, step.texts(out), names);
      } else {
        var kept := KeptBy(step, out);
        m := StageStep(m, step, names);
        out := SpliceSpans(out, Edits(kept, names));
        hits := hits + KeysOf(kept);
      }
    }
  }

  method KeptBy(stage: Stage, text: string) returns (kept: seq<Cand>)
    requires !stage.Everywhere?
    ensures kept == Kept(stage, text)
  {
    var found := stage.find(text);
    assert Ascending(found, |text|);
    if stage.Rule? {
      kept := KeepByCursor(found, StrictSpans(text), |text|);
    } else {
      kept := KeepOutsideWords(found, StrictSpans(text));
    }
  }
}
