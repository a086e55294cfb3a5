/**
 The text round trip: masking followed by restoring in the same session. The loop
 invariant is a view of the text as cells, in which an issued placeholder is one
 cell and can never be cut.
 */
module RoundTrip {
  import opened Wrappers
  import opened Seqs
  import opened Placeholders
  import opened Codec
  import Restore
  import opened Masking

  // ------------------------------------------------------------------------- cells

  /** A character of the original text, or a placeholder issued for `key` in place of `src`. */
  datatype Cell = Char(c: char) | Issued(tag: string, suffix: string, key: string, src: string)

  ghost predicate ValidCells(cs: seq<Cell>) {
    forall k :: 0 <= k < |cs| && cs[k].Issued? ==> IsLabel(cs[k].tag) && IsSuffix(cs[k].suffix)
  }

  function CellText(c: Cell): (s: string)
    ensures s != []
  {
    match c
    case Char(ch) => [ch]
    case Issued(tag, suffix, _, _) => Token(tag, suffix)
  }

  function CellSource(c: Cell): string { if c.Char? then [c.c] else c.src }
  function CellKey(c: Cell): string { if c.Char? then [c.c] else c.key }

  /** The masked text, the original text, and the text with each placeholder replaced by its key. */
  function Text(cs: seq<Cell>): string { Flat(cs, CellText) }
  function Source(cs: seq<Cell>): string { Flat(cs, CellSource) }
  function Keys(cs: seq<Cell>): string { Flat(cs, CellKey) }

  ghost predicate Chars(cs: seq<Cell>, n: nat) {
    n <= |cs| && forall k :: 0 <= k < n ==> cs[k].Char?
  }

  /** A view that shows a character as itself. */
  ghost predicate Shows(f: Cell -> string) { forall c :: f(Char(c)) == [c] }

  /** n character cells show n characters, the same in every view. */
  lemma {:induction false} CharsFlat(cs: seq<Cell>, n: nat, f: Cell -> string)
    requires Chars(cs, n) && Shows(f)
    ensures Flat(cs[..n], f) == Flat(cs[..n], CellText) && |Flat(cs[..n], f)| == n
  {
    if n > 0 {
      var t := cs[1..];
      assert Chars(t, n - 1);
      CharsFlat(t, n - 1, f);
      assert cs[..n][1..] == t[..n - 1];
      assert cs[0] == Char(cs[0].c);
    }
  }

  lemma {:induction false} CharsView(cs: seq<Cell>, n: nat, f: Cell -> string)
    requires Chars(cs, n) && Shows(f)
    ensures |Flat(cs, f)| >= n && Flat(cs, f)[..n] == Text(cs[..n]) && Flat(cs, f)[n..] == Flat(cs[n..], f)
  {
    CharsFlat(cs, n, f);
    FlatSplit(cs, n, f);
    Seam(Flat(cs[..n], f), Flat(cs[n..], f));
  }

  /** A cell has a text, and an issued one begins with two braces. */
  lemma {:induction false} CellsBegin(cs: seq<Cell>)
    ensures cs != [] ==> |Text(cs)| > 0
    ensures cs != [] && cs[0].Issued? ==> |Text(cs)| > 1 && Text(cs)[1] == '{'
  {
    if cs != [] { assert Text(cs) == CellText(cs[0]) + Text(cs[1..]); }
  }

  /** A character in front, and no brace as the third character of the text: the second cell is a character, too. */
  lemma {:induction false} SecondIsChar(cs: seq<Cell>, len: nat)
    requires cs != [] && cs[0].Char? && 3 <= len <= |Text(cs)| && '{' !in Text(cs)[2..len]
    ensures |cs| > 1 && cs[1].Char? && Text(cs)[2..] == Text(cs[2..])
  {
    var s, t := Text(cs), Text(cs[1..]);
    assert s[1..] == t;
    CellsBegin(cs[1..]);
    InSlice(s, 2, 2, len);
    assert |cs| > 1 && cs[1..][0] == cs[1];
    assert cs[1..][1..] == cs[2..];
    assert t == CellText(cs[1]) + Text(cs[2..]);
    assert t[1..] == Text(cs[2..]);
  }

  /** Text that has its only opening braces at 0 and 1 covers no issued placeholder, unless it begins with one. */
  lemma {:induction false} CharsOnly(cs: seq<Cell>, len: nat)
    requires cs != [] && cs[0].Char? && 3 <= len <= |Text(cs)|
    requires '{' !in Text(cs)[2..len]
    ensures Chars(cs, len)
  {
    SecondIsChar(cs, len);
    assert Text(cs)[2..][..len - 2] == Text(cs)[2..len];
    NoBraceChars(cs[2..], len - 2);
    forall k | 0 <= k < len ensures k < |cs| && cs[k].Char? {
      if k >= 2 { assert cs[2..][k - 2] == cs[k]; }
    }
  }

  lemma {:induction false} NoBraceChars(cs: seq<Cell>, n: nat)
    requires n <= |Text(cs)| && '{' !in Text(cs)[..n]
    ensures Chars(cs, n)
  {
    if n > 0 {
      var s := Text(cs);
      assert s[..n][0] == s[0];
      assert s[1..] == Text(cs[1..]);
      assert s[1..][..n - 1] == s[..n][1..];
      NoBraceChars(cs[1..], n - 1);
      forall k | 0 <= k < n ensures k < |cs| && cs[k].Char? {
        if k > 0 { assert cs[k] == cs[1..][k - 1]; }
      }
    }
  }

  // ------------------------------------------------- placeholders are never cut

  lemma {:induction false} IssuedText(cs: seq<Cell>)
    requires cs != [] && cs[0].Issued? && ValidCells(cs)
    ensures TokenAt(Text(cs), cs[0].tag, cs[0].suffix)
    ensures Text(cs)[..|cs[0].tag| + 11] == CellText(cs[0]) && Text(cs)[|cs[0].tag| + 11..] == Text(cs[1..])
    ensures |CellText(cs[0])| == |cs[0].tag| + 11
  {
    TokenIsAt(cs[0].tag, cs[0].suffix, Text(cs[1..]));
  }

  /** The range [from, to), counted from the first cell, touches no issued placeholder. */
  ghost predicate ClearOf(cs: seq<Cell>, from: int, to: int) {
    if cs == [] then true
    else
      var w := |CellText(cs[0])|;
      (cs[0].Issued? ==> !(from < w && to > 0)) && ClearOf(cs[1..], from - w, to - w)
  }

  lemma {:induction false} ClearOfDrop(cs: seq<Cell>, n: nat, from: int, to: int)
    requires n <= |cs|
    ensures ClearOf(cs, from, to) ==> ClearOf(cs[n..], from - |Text(cs[..n])|, to - |Text(cs[..n])|)
    ensures Chars(cs, n) ==> (ClearOf(cs, from, to) <==> ClearOf(cs[n..], from - n, to - n))
  {
    if n == 0 {
      Whole(cs);
    } else {
      var w := |CellText(cs[0])|;
      ClearOfDrop(cs[1..], n - 1, from - w, to - w);
      DropDrop(cs, 1, n - 1);
      assert cs[..n][1..] == cs[1..][..n - 1];
      assert Text(cs[..n]) == CellText(cs[0]) + Text(cs[1..][..n - 1]);
    }
  }

  lemma {:induction false} ClearOfInside(cs: seq<Cell>, from: int, to: int, from': int, to': int)
    requires ClearOf(cs, from, to) && from <= from' && to' <= to
    ensures ClearOf(cs, from', to')
  {
    if cs != [] {
      var w := |CellText(cs[0])|;
      ClearOfInside(cs[1..], from - w, to - w, from' - w, to' - w);
    }
  }

  /** How far a scan goes on from here. */
  function Step(m: Matcher, t: string): (n: nat)
    requires t != ""
    ensures 0 < n <= |t|
  {
    assert m(t) <= |t|;
    if m(t) == 0 then 1 else m(t)
  }

  /** No match of t, scanned from its start, touches [from, to). */
  ghost predicate ClearIn(t: string, m: Matcher, from: int, to: int)
    decreases |t|
  {
    t != "" ==>
      && (m(t) > 0 ==> !(from < m(t) && to > 0))
      && ClearIn(t[Step(m, t)..], m, from - Step(m, t), to - Step(m, t))
  }

  lemma {:induction false} ClearHead(c: Cand, ph: Span, rest: seq<Span>)
    requires Clear(c, [ph] + rest)
    ensures !Overlap(c, ph) && Clear(c, rest)
  {
    var phs := [ph] + rest;
    assert phs[0] == ph;
    forall k | 0 <= k < |rest| ensures !Overlap(c, rest[k]) { assert phs[k + 1] == rest[k]; }
  }

  lemma {:induction false} SpansRest(s: string, i: nat, m: Matcher, c: Cand, k: nat)
    requires i < |s| && Clear(c, SpansBy(s, i, m)) && k == if m(s[i..]) == 0 then 1 else m(s[i..])
    ensures i + k <= |s| && Clear(c, SpansBy(s, i + k, m)) && (m(s[i..]) > 0 ==> !Overlap(c, (i, i + k)))
  {
    assert m(s[i..]) <= |s[i..]|;
    if m(s[i..]) > 0 { ClearHead(c, (i, i + k), SpansBy(s, i + k, m)); }
  }

  lemma {:induction false} ClearInCons(s: string, i: nat, m: Matcher, k: nat, from: int, to: int)
    requires i < |s| && i + k <= |s| && k == if m(s[i..]) == 0 then 1 else m(s[i..])
    requires m(s[i..]) > 0 ==> !(from < k && to > 0)
    requires ClearIn(s[i + k..], m, from - k, to - k)
    ensures ClearIn(s[i..], m, from, to)
  {
    DropDrop(s, i, k);
  }

  lemma {:induction false} ClearInSpans(s: string, i: nat, m: Matcher, c: Cand, from: int, to: int)
    requires i <= |s| && Clear(c, SpansBy(s, i, m)) && from == c.start - i && to == c.end - i
    ensures ClearIn(s[i..], m, from, to)
    decreases |s| - i
  {
    if i < |s| {
      var t := s[i..];
      assert m(t) <= |t|;
      var k := if m(t) == 0 then 1 else m(t);
      SpansRest(s, i, m, c, k);
      ClearInSpans(s, i + k, m, c, from - k, to - k);
      ClearInCons(s, i, m, k, from, to);
    }
  }

  /** The matcher finds an issued placeholder whole, and a match that begins with a character is made of characters. */
  ghost predicate FindsAt(m: Matcher, cs: seq<Cell>) {
    cs != [] && ValidCells(cs) ==>
      if cs[0].Issued? then m(Text(cs)) == |CellText(cs[0])| else Chars(cs, m(Text(cs)))
  }

  ghost predicate FindsIssued(m: Matcher) { forall cs: seq<Cell> :: FindsAt(m, cs) }

  lemma {:induction false} StrictFindsAt(cs: seq<Cell>)
    ensures FindsAt(StrictLen, cs)
  {
    if cs != [] && ValidCells(cs) {
      if cs[0].Issued? {
        IssuedText(cs);
        StrictToken(Text(cs), cs[0].tag, cs[0].suffix);
      } else if StrictLen(Text(cs)) > 0 {
        StrictEnds(Text(cs));
        CharsOnly(cs, StrictLen(Text(cs)));
      }
    }
  }

  lemma {:induction false} StrictFindsIssued()
    ensures FindsIssued(StrictLen)
  {
    forall cs: seq<Cell> ensures FindsAt(StrictLen, cs) { StrictFindsAt(cs); }
  }

  lemma {:induction false} IssuedStep(cs: seq<Cell>)
    requires cs != []
    ensures Text(cs)[|CellText(cs[0])|..] == Text(cs[1..])
  {
    Seam(CellText(cs[0]), Text(cs[1..]));
  }

  /** The cells up to where the scan goes on, and the width of their text. */
  lemma {:induction false} FoundFirst(cs: seq<Cell>, m: Matcher) returns (k: nat)
    requires cs != [] && Text(cs) != "" && ValidCells(cs) && FindsAt(m, cs)
    ensures 0 < k <= |cs| && ValidCells(cs[k..]) && Text(cs)[Step(m, Text(cs))..] == Text(cs[k..])
    ensures cs[0].Issued? ==> k == 1 && Step(m, Text(cs)) == m(Text(cs)) == |CellText(cs[0])|
    ensures cs[0].Char? ==> Chars(cs, k) && Step(m, Text(cs)) == k
  {
    if cs[0].Issued? {
      k := 1;
      IssuedStep(cs);
    } else {
      k := Step(m, Text(cs));
      assert Chars(cs, k);
      CharsView(cs, k, CellText);
    }
  }

  lemma {:induction false} ClearInUncons(t: string, m: Matcher, from: int, to: int)
    requires t != "" && ClearIn(t, m, from, to)
    ensures m(t) > 0 ==> !(from < m(t) && to > 0)
    ensures ClearIn(t[Step(m, t)..], m, from - Step(m, t), to - Step(m, t))
  {
  }

  lemma {:induction false} ClearOfIssued(cs: seq<Cell>, from: int, to: int, w: nat)
    requires cs != [] && cs[0].Issued? && w == |CellText(cs[0])| && !(from < w && to > 0)
    requires ClearOf(cs[1..], from - w, to - w)
    ensures ClearOf(cs, from, to)
  {
  }

  lemma {:induction false} ClearOfChars(cs: seq<Cell>, k: nat, from: int, to: int)
    requires Chars(cs, k) && ClearOf(cs[k..], from - k, to - k)
    ensures ClearOf(cs, from, to)
  {
    ClearOfDrop(cs, k, from, to);
  }

  lemma {:induction false} ClearOfStep(cs: seq<Cell>, k: nat, w: nat, from: int, to: int)
    requires 0 < k <= |cs| && ClearOf(cs[k..], from - w, to - w)
    requires cs[0].Issued? ==> k == 1 && w == |CellText(cs[0])| && !(from < w && to > 0)
    requires cs[0].Char? ==> Chars(cs, k) && w == k
    ensures ClearOf(cs, from, to)
  {
    if cs[0].Char? { ClearOfChars(cs, k, from, to); } else { ClearOfIssued(cs, from, to, w); }
  }

  lemma {:induction false} ClearFirst(cs: seq<Cell>, m: Matcher, from: int, to: int) returns (k: nat, w: nat)
    requires cs != [] && ValidCells(cs) && FindsAt(m, cs) && ClearIn(Text(cs), m, from, to)
    ensures 0 < k <= |cs| && ValidCells(cs[k..]) && ClearIn(Text(cs[k..]), m, from - w, to - w)
    ensures cs[0].Issued? ==> k == 1 && w == |CellText(cs[0])| && !(from < w && to > 0)
    ensures cs[0].Char? ==> Chars(cs, k) && w == k
  {
    CellsBegin(cs);
    k := FoundFirst(cs, m);
    w := Step(m, Text(cs));
    ClearInUncons(Text(cs), m, from, to);
  }

  /** Every issued placeholder is among the matches, so a range clear of those is clear of the issued ones. */
  lemma {:induction false} ClearCells(cs: seq<Cell>, m: Matcher, from: int, to: int)
    requires FindsIssued(m) && ValidCells(cs) && ClearIn(Text(cs), m, from, to)
    ensures ClearOf(cs, from, to)
    decreases |cs|
  {
    if cs != [] {
      assert FindsAt(m, cs);
      var k, w := ClearFirst(cs, m, from, to);
      ClearCells(cs[k..], m, from - w, to - w);
      ClearOfStep(cs, k, w, from, to);
    }
  }

  /** A range clear of issued placeholders is a run of character cells. */
  lemma {:induction false} CellsOfRange(cs: seq<Cell>, from: nat, to: nat) returns (a: nat, b: nat)
    requires from <= to <= |Text(cs)| && ClearOf(cs, from, to)
    ensures a <= b <= |cs| && |Text(cs[..a])| == from && |Text(cs[..b])| == to
    ensures Chars(cs[a..], b - a)
  {
    if to == 0 {
      a, b := 0, 0;
      Whole(cs);
    } else {
      var w := |CellText(cs[0])|;
      assert Text(cs) == CellText(cs[0]) + Text(cs[1..]);
      if from >= w {
        a, b := CellsOfRange(cs[1..], from - w, to - w);
        DropDrop(cs, 1, a);
        Prepend(cs, a);
        Prepend(cs, b);
        a, b := a + 1, b + 1;
      } else {
        assert cs[0].Char?;
        assert w == 1 && from == 0;
        ClearOfInside(cs[1..], from - w, to - w, 0, to - w);
        a, b := CellsOfRange(cs[1..], 0, to - 1);
        EmptyText(cs[1..], a);
        Prepend(cs, b);
        Whole(cs);
        assert cs[1..][0..] == cs[1..];
        forall k | 0 <= k < b + 1 ensures cs[k].Char? {
          if k > 0 { assert cs[k] == cs[1..][k - 1]; }
        }
        a, b := 0, b + 1;
      }
    }
  }

  lemma {:induction false} Prepend(cs: seq<Cell>, k: nat)
    requires k < |cs|
    ensures Text(cs[..k + 1]) == CellText(cs[0]) + Text(cs[1..][..k])
  {
    assert cs[..k + 1][1..] == cs[1..][..k];
  }

  lemma {:induction false} EmptyText(cs: seq<Cell>, a: nat)
    requires a <= |cs| && |Text(cs[..a])| == 0
    ensures a == 0
  {
    CellsBegin(cs[..a]);
  }

  // ------------------------------------------------------------------ one stage

  /** Every issued cell carries the name its key has, and a key among the hits. */
  ghost predicate Named(cs: seq<Cell>, names: Naming, hits: seq<string>) {
    forall k :: 0 <= k < |cs| && cs[k].Issued? ==>
      (cs[k].tag, cs[k].suffix) == names(cs[k].key) && cs[k].key in hits
  }

  ghost predicate AllExact(cs: seq<Cell>) {
    forall k :: 0 <= k < |cs| && cs[k].Issued? ==> cs[k].key == cs[k].src
  }

  ghost predicate SafeNames(names: Naming) {
    forall key :: IsLabel(names(key).0) && IsSuffix(names(key).1)
  }

  /** A key has as many characters as the text it stands for: words match up to letter case. */
  ghost predicate SameLengths(cs: seq<Cell>) {
    forall k :: 0 <= k < |cs| && cs[k].Issued? ==> |cs[k].key| == |cs[k].src|
  }

  ghost predicate KeyLengths(kept: seq<Cand>) {
    forall i :: 0 <= i < |kept| ==> kept[i].from <= kept[i].to && |kept[i].key| == kept[i].to - kept[i].from
  }

  function Issue(names: Naming, c: Cand, src: string): Cell {
    Issued(names(c.key).0, names(c.key).1, c.key, src)
  }

  /** The cells after a splice: they show the spliced text and the same original text, and carry the keys. */
  ghost predicate Spliced(text: string, last: nat, cs: seq<Cell>, kept: seq<Cand>, names: Naming, out: seq<Cell>)
    requires last <= |text| && Ascending(kept, |text|)
  {
    && Text(out) == Splice(text, last, Edits(kept, names)) && Source(out) == Source(cs) && ValidCells(out)
    && (forall hits :: Named(cs, names, hits) ==> Named(out, names, hits + KeysOf(kept)))
    && (AllExact(out) <==> AllExact(cs) && Exact(kept, text))
    && (SameLengths(cs) && KeyLengths(kept) ==> SameLengths(out))
  }

  /**
   Replacing kept matches in the text replaces runs of character cells by issued ones.
   The original text stays what it was, and no issued placeholder is cut.
   */
  lemma {:induction false} SpliceCells(text: string, last: nat, cs: seq<Cell>, kept: seq<Cand>, names: Naming)
    returns (out: seq<Cell>)
    requires last <= |text| && text[last..] == Text(cs)
    requires Ascending(kept, |text|) && (kept != [] ==> last <= kept[0].start)
    requires forall c :: c in kept ==> ClearOf(cs, c.from - last, c.to - last)
    requires ValidCells(cs) && SafeNames(names)
    ensures Spliced(text, last, cs, kept, names, out)
    decreases |kept|, 1
  {
    var edits := Edits(kept, names);
    if kept == [] {
      out := cs;
      forall hits | Named(cs, names, hits) ensures Named(out, names, hits + KeysOf(kept)) {
        Whole(hits);
        assert KeysOf(kept) == [];
      }
    } else {
      var c := kept[0];
      assert c in kept;
      var a, b := CellsOfRange(cs, c.from - last, c.to - last);
      var rest := SpliceRest(text, last, cs, kept, names, b);
      var cell := Issue(names, c, Source(cs[a..b]));
      out := cs[..a] + ([cell] + rest);
      SpliceText(text, last, cs, kept, names, a, b, cell, rest);
      SpliceSource(cs, a, b, cell, rest);
      ChainValid(cs, a, b, cell, rest);
      forall hits | Named(cs, names, hits) ensures Named(out, names, hits + KeysOf(kept)) {
        ChainNamed(cs, a, b, cell, rest, names, hits, kept);
      }
      ChainExact(text, last, cs, kept, a, b, cell, rest);
      if SameLengths(cs) && KeyLengths(kept) {
        SourceOfRange(text, last, cs, c.from, c.to, a, b);
        ChainLengths(cs, a, b, cell, rest);
      }
    }
  }

  /** The remaining matches in the remaining cells. */
  lemma {:induction false} SpliceRest(text: string, last: nat, cs: seq<Cell>, kept: seq<Cand>, names: Naming, b: nat)
    returns (rest: seq<Cell>)
    requires last <= |text| && text[last..] == Text(cs)
    requires Ascending(kept, |text|) && kept != [] && last <= kept[0].start
    requires forall c :: c in kept ==> ClearOf(cs, c.from - last, c.to - last)
    requires ValidCells(cs) && SafeNames(names)
    requires b <= |cs| && |Text(cs[..b])| == kept[0].to - last
    ensures kept[0].to <= |text| && Ascending(kept[1..], |text|)
    ensures Spliced(text, kept[0].to, cs[b..], kept[1..], names, rest)
    decreases |kept|, 0
  {
    var to := kept[0].to;
    RestText(text, last, cs, b, to);
    TailAscending(kept, |text|);
    RestClear(cs, kept, last, b, to);
    assert kept[1..] != [] ==> to <= kept[1..][0].start;
    rest := SpliceCells(text, to, cs[b..], kept[1..], names);
  }

  lemma {:induction false} RestClear(cs: seq<Cell>, kept: seq<Cand>, last: nat, b: nat, to: nat)
    requires kept != [] && b <= |cs| && |Text(cs[..b])| == to - last
    requires forall c :: c in kept ==> ClearOf(cs, c.from - last, c.to - last)
    ensures forall d :: d in kept[1..] ==> ClearOf(cs[b..], d.from - to, d.to - to)
  {
    forall d | d in kept[1..] ensures ClearOf(cs[b..], d.from - to, d.to - to) {
      assert d in kept;
      ClearOfDrop(cs, b, d.from - last, d.to - last);
    }
  }

  lemma {:induction false} RestText(text: string, last: nat, cs: seq<Cell>, b: nat, to: nat)
    requires last <= to <= |text| && text[last..] == Text(cs)
    requires b <= |cs| && |Text(cs[..b])| == to - last
    ensures text[to..] == Text(cs[b..])
  {
    FlatSplit(cs, b, CellText);
    Seam(Text(cs[..b]), Text(cs[b..]));
    DropDrop(text, last, to - last);
  }

  lemma {:induction false} SpliceFirst(text: string, last: nat, kept: seq<Cand>, names: Naming)
    requires Ascending(kept, |text|) && kept != [] && last <= kept[0].start
    ensures var c := kept[0];
            && Ascending(kept[1..], |text|) && last <= c.from <= c.to <= |text|
            && Splice(text, last, Edits(kept, names))
            == text[last..c.from] + NameToken(names, c.key) + Splice(text, c.to, Edits(kept[1..], names))
  {
    TailAscending(kept, |text|);
    assert Edits(kept, names)[1..] == Edits(kept[1..], names);
  }

  lemma {:induction false} BeforeText(text: string, last: nat, cs: seq<Cell>, a: nat, from: nat)
    requires last <= from <= |text| && text[last..] == Text(cs) && a <= |cs| && |Text(cs[..a])| == from - last
    ensures Text(cs[..a]) == text[last..from]
  {
    FlatSplit(cs, a, CellText);
    Seam(Text(cs[..a]), Text(cs[a..]));
    TakeOfDrop(text, last, from - last);
  }

  lemma {:induction false} SpliceText(text: string, last: nat, cs: seq<Cell>, kept: seq<Cand>, names: Naming,
                                      a: nat, b: nat, cell: Cell, rest: seq<Cell>)
    requires last <= |text| && text[last..] == Text(cs)
    requires Ascending(kept, |text|) && kept != [] && last <= kept[0].start
    requires a <= b <= |cs| && |Text(cs[..a])| == kept[0].from - last
    requires cell.Issued? && cell == Issue(names, kept[0], cell.src)
    requires Text(rest) == Splice(text, kept[0].to, Edits(kept[1..], names))
    ensures Text(cs[..a] + ([cell] + rest)) == Splice(text, last, Edits(kept, names))
  {
    var c := kept[0];
    SpliceFirst(text, last, kept, names);
    FlatConcat(cs[..a], [cell] + rest, CellText);
    FlatConcat([cell], rest, CellText);
    BeforeText(text, last, cs, a, c.from);
    assert Text([cell]) == NameToken(names, c.key) by { Whole(CellText(cell)); }
    Assoc(text[last..c.from], NameToken(names, c.key), Text(rest));
  }

  lemma {:induction false} SpliceSource(cs: seq<Cell>, a: nat, b: nat, cell: Cell, rest: seq<Cell>)
    requires a <= b <= |cs| && cell.Issued? && cell.src == Source(cs[a..b]) && Source(rest) == Source(cs[b..])
    ensures Source(cs[..a] + ([cell] + rest)) == Source(cs)
  {
    FlatConcat(cs[..a], [cell] + rest, CellSource);
    FlatConcat([cell], rest, CellSource);
    assert Source([cell]) == cell.src by { Whole(cell.src); }
    FlatSplit(cs, a, CellSource);
    FlatSplit(cs[a..], b - a, CellSource);
    assert cs[a..][..b - a] == cs[a..b];
    DropDrop(cs, a, b - a);
  }

  lemma {:induction false} ChainValid(cs: seq<Cell>, a: nat, b: nat, cell: Cell, rest: seq<Cell>)
    requires a <= b <= |cs| && ValidCells(cs) && ValidCells(rest)
    requires cell.Issued? ==> IsLabel(cell.tag) && IsSuffix(cell.suffix)
    ensures ValidCells(cs[..a] + ([cell] + rest))
  {
  }

  lemma {:induction false} ChainNamed(cs: seq<Cell>, a: nat, b: nat, cell: Cell, rest: seq<Cell>,
                                      names: Naming, hits: seq<string>, kept: seq<Cand>)
    requires a <= b <= |cs| && kept != [] && Named(cs, names, hits)
    requires cell.Issued? && cell == Issue(names, kept[0], cell.src)
    requires forall h :: Named(cs[b..], names, h) ==> Named(rest, names, h + KeysOf(kept[1..]))
    ensures Named(cs[..a] + ([cell] + rest), names, hits + KeysOf(kept))
  {
    var all := hits + KeysOf(kept);
    assert KeysOf(kept) == [kept[0].key] + KeysOf(kept[1..]);
    assert all[|hits|] == kept[0].key;
    var h := hits + KeysOf(kept[1..]);
    assert Named(cs[b..], names, hits);
    assert forall x :: x in h ==> x in all;
    assert forall x :: x in hits ==> x in all;
  }

  lemma {:induction false} ChainLengths(cs: seq<Cell>, a: nat, b: nat, cell: Cell, rest: seq<Cell>)
    requires a <= b <= |cs| && SameLengths(cs) && (SameLengths(cs[b..]) ==> SameLengths(rest))
    requires cell.Issued? ==> |cell.key| == |cell.src|
    ensures SameLengths(cs[..a] + ([cell] + rest))
  {
    assert SameLengths(cs[b..]);
  }

  lemma {:induction false} ChainExact(text: string, last: nat, cs: seq<Cell>, kept: seq<Cand>,
                                      a: nat, b: nat, cell: Cell, rest: seq<Cell>)
    requires last <= |text| && text[last..] == Text(cs)
    requires Ascending(kept, |text|) && kept != [] && last <= kept[0].start
    requires a <= b <= |cs| && |Text(cs[..a])| == kept[0].from - last && |Text(cs[..b])| == kept[0].to - last
    requires Chars(cs[a..], b - a)
    requires cell.Issued? && cell.src == Source(cs[a..b]) && cell.key == kept[0].key
    requires AllExact(rest) <==> AllExact(cs[b..]) && Exact(kept[1..], text)
    ensures AllExact(cs[..a] + ([cell] + rest)) <==> AllExact(cs) && Exact(kept, text)
  {
    var c := kept[0];
    SourceOfRange(text, last, cs, c.from, c.to, a, b);
    assert Exact(kept, text) <==> c.key == text[c.from..c.to] && Exact(kept[1..], text) by {
      ExactCons(kept, text);
    }
    var out := cs[..a] + ([cell] + rest);
    ExactParts(cs[..a], [cell] + rest);
    ExactParts([cell], rest);
    assert [cell][0] == cell;
    assert AllExact([cell]) <==> cell.key == cell.src;
    Halves(cs, a);
    ExactParts(cs[..a], cs[a..]);
    Halves(cs[a..], b - a);
    DropDrop(cs, a, b - a);
    ExactParts(cs[a..][..b - a], cs[b..]);
    assert AllExact(cs[a..][..b - a]);
  }

  lemma {:induction false} ExactParts(x: seq<Cell>, y: seq<Cell>)
    ensures AllExact(x + y) <==> AllExact(x) && AllExact(y)
  {
    if AllExact(x + y) {
      forall k | 0 <= k < |x| && x[k].Issued? ensures x[k].key == x[k].src { assert (x + y)[k] == x[k]; }
      forall k | 0 <= k < |y| && y[k].Issued? ensures y[k].key == y[k].src { assert (x + y)[|x| + k] == y[k]; }
    }
  }

  lemma {:induction false} ExactCons(kept: seq<Cand>, text: string)
    requires Ascending(kept, |text|) && kept != []
    ensures Ascending(kept[1..], |text|)
    ensures Exact(kept, text) <==> kept[0].key == text[kept[0].from..kept[0].to] && Exact(kept[1..], text)
  {
    TailAscending(kept, |text|);
    if kept[0].key == text[kept[0].from..kept[0].to] && Exact(kept[1..], text) {
      forall i | 0 <= i < |kept| ensures kept[i].key == text[kept[i].from..kept[i].to] {
        if i > 0 { assert kept[i] == kept[1..][i - 1]; }
      }
    }
    if Exact(kept, text) {
      forall i | 0 <= i < |kept[1..]| ensures kept[1..][i].key == text[kept[1..][i].from..kept[1..][i].to] {
        assert kept[1..][i] == kept[i + 1];
      }
    }
  }

  /** What the replaced cells show is the slice of the text. */
  lemma {:induction false} SourceOfRange(text: string, last: nat, cs: seq<Cell>, from: nat, to: nat, a: nat, b: nat)
    requires last <= from <= to <= |text| && text[last..] == Text(cs)
    requires a <= b <= |cs| && |Text(cs[..a])| == from - last && |Text(cs[..b])| == to - last
    requires Chars(cs[a..], b - a)
    ensures Source(cs[a..b]) == text[from..to]
  {
    TextFrom(text, last, cs, from, a);
    CharsView(cs[a..], b - a, CellText);
    CharsFlat(cs[a..], b - a, CellSource);
    CharsFlat(cs[a..], b - a, CellText);
    assert cs[a..][..b - a] == cs[a..b];
    TakeOfDrop(text, from, to - from);
    WidthBetween(cs, a, b);
  }

  lemma {:induction false} TextFrom(text: string, last: nat, cs: seq<Cell>, from: nat, a: nat)
    requires last <= from <= |text| && text[last..] == Text(cs) && a <= |cs| && |Text(cs[..a])| == from - last
    ensures text[from..] == Text(cs[a..])
  {
    FlatSplit(cs, a, CellText);
    Seam(Text(cs[..a]), Text(cs[a..]));
    DropDrop(text, last, from - last);
  }

  lemma {:induction false} WidthBetween(cs: seq<Cell>, a: nat, b: nat)
    requires a <= b <= |cs|
    ensures |Text(cs[a..b])| == |Text(cs[..b])| - |Text(cs[..a])|
  {
    assert cs[..b] == cs[..a] + cs[a..b];
    FlatConcat(cs[..a], cs[a..b], CellText);
  }

  // ------------------------------------------------------------------ all stages

  /** What a custom word finds: non-empty text that cannot cut a placeholder. */
  ghost predicate WordFinder(find: Finder) {
    forall s, c :: c in find(s) ==>
      c.start == c.from < c.to == c.end <= |s| && !EdgeWord(s[c.start..c.end])
  }

  /** What a rule finds: its key is its value group. */
  ghost predicate RuleFinder(find: Finder) {
    forall s, c :: c in find(s) ==> c.from <= c.to <= |s| && c.key == s[c.from..c.to]
  }

  /** None of the texts, when its turn comes, is replaced inside a placeholder or over the edge of one. */
  ghost predicate Spares(m: Masked, ts: seq<string>, names: Naming)
    decreases |ts|
  {
    ts != [] ==> !Hurts(ts[0], m.out) && Spares(TextStep(m, ts[0], names), ts[1..], names)
  }

  ghost predicate SoundStage(m: Masked, stage: Stage, names: Naming) {
    match stage
    case Words(find) => WordFinder(find)
    case Rule(find) => RuleFinder(find)
    case Everywhere(texts) => Spares(m, texts(m.out), names)
  }

  ghost predicate SoundFrom(m: Masked, stages: seq<Stage>, names: Naming)
    decreases |stages|
  {
    stages != [] ==> SoundStage(m, stages[0], names) && SoundFrom(StageStep(m, stages[0], names), stages[1..], names)
  }

  /** What masking this text asks of the stages. */
  ghost predicate Sound(text: string, stages: seq<Stage>, names: Naming) { SoundFrom(Masked(text, [], true), stages, names) }

  /** Stages that are sound for every text: texts replaced everywhere fit over no placeholder. */
  ghost predicate AlwaysSound(stage: Stage) {
    match stage
    case Words(find) => WordFinder(find)
    case Rule(find) => RuleFinder(find)
    case Everywhere(texts) => forall s, t :: t in texts(s) ==> !TouchWord(t)
  }

  lemma {:induction false} NoTouchSpares(m: Masked, ts: seq<string>, names: Naming)
    requires forall t :: t in ts ==> !TouchWord(t)
    ensures Spares(m, ts, names)
    decreases |ts|
  {
    if ts != [] {
      if Hurts(ts[0], m.out) { HurtsTouches(ts[0], m.out); }
      NoTouchSpares(TextStep(m, ts[0], names), ts[1..], names);
    }
  }

  lemma {:induction false} AlwaysSoundStage(m: Masked, stage: Stage, names: Naming)
    requires AlwaysSound(stage)
    ensures SoundStage(m, stage, names)
  {
    if stage.Everywhere? { NoTouchSpares(m, stage.texts(m.out), names); }
  }

  lemma {:induction false} AlwaysSoundFrom(m: Masked, stages: seq<Stage>, names: Naming)
    requires forall i :: 0 <= i < |stages| ==> AlwaysSound(stages[i])
    ensures SoundFrom(m, stages, names)
    decreases |stages|, 0
  {
    if stages != [] {
      AlwaysSoundStage(m, stages[0], names);
      AlwaysSoundRest(StageStep(m, stages[0], names), stages, names);
    }
  }

  lemma {:induction false} AlwaysSoundRest(m: Masked, stages: seq<Stage>, names: Naming)
    requires stages != [] && forall i :: 0 <= i < |stages| ==> AlwaysSound(stages[i])
    ensures SoundFrom(m, stages[1..], names)
    decreases |stages| - 1, 1
  {
    var rest := stages[1..];
    forall i | 0 <= i < |rest| ensures AlwaysSound(rest[i]) { assert rest[i] == stages[i + 1]; }
    AlwaysSoundFrom(m, rest, names);
  }

  /** Whatever a stage keeps touches no strict placeholder, whichever of the two tests it uses. */
  lemma {:induction false} KeptTouchesNone(stage: Stage, text: string, c: Cand)
    requires !stage.Everywhere? && AlwaysSound(stage) && c in Kept(stage, text)
    ensures c.start <= c.from && c.to <= c.end && Clear(c, StrictSpans(text))
  {
    var found, phs := stage.find(text), StrictSpans(text);
    assert Ascending(found, |text|);
    if stage.Words? {
      KeepOutsideSome(found, phs, |text|);
      NoEdgeContained(text, c);
    } else {
      KeepClearSome(found, phs, |text|);
    }
  }

  lemma {:induction false} KeptClear(stage: Stage, text: string, cs: seq<Cell>, c: Cand)
    requires text == Text(cs) && ValidCells(cs) && !stage.Everywhere? && AlwaysSound(stage) && c in Kept(stage, text)
    ensures ClearOf(cs, c.from, c.to)
  {
    KeptTouchesNone(stage, text, c);
    ClearFromStart(text, cs, c);
    ClearOfInside(cs, c.start, c.end, c.from, c.to);
  }

  lemma {:induction false} ClearFromStart(text: string, cs: seq<Cell>, c: Cand)
    requires text == Text(cs) && ValidCells(cs) && Clear(c, StrictSpans(text))
    ensures ClearOf(cs, c.start, c.end)
  {
    FromZero(text, Text(cs));
    ClearInSpans(text, 0, StrictLen, c, c.start, c.end);
    StrictFindsIssued();
    ClearCells(cs, StrictLen, c.start, c.end);
  }

  lemma {:induction false} FromZero(a: string, b: string)
    requires a == b
    ensures a[0..] == b
  {
  }

  /** What a step keeps of the loop: the cells show the text, carry the names, and tell exactness. */
  ghost predicate Shown(m: Masked, cs: seq<Cell>, names: Naming) {
    && m.out == Text(cs) && ValidCells(cs) && Named(cs, names, m.hits) && (m.exact <==> AllExact(cs))
  }

  lemma {:induction false} StageCells(m: Masked, stage: Stage, names: Naming, cs: seq<Cell>) returns (out: seq<Cell>)
    requires Shown(m, cs, names) && SafeNames(names) && SoundStage(m, stage, names)
    ensures Shown(StageStep(m, stage, names), out, names) && Source(out) == Source(cs)
    ensures SameLengths(cs) && KeepsLengths(stage) ==> SameLengths(out)
  {
    if stage.Everywhere? {
      out := TextsCells(m, stage.texts(m.out), names, cs);
    } else {
      out := KeptCells(m, stage, names, cs);
    }
  }

  lemma {:induction false} KeptCells(m: Masked, stage: Stage, names: Naming, cs: seq<Cell>) returns (out: seq<Cell>)
    requires Shown(m, cs, names) && SafeNames(names) && !stage.Everywhere? && AlwaysSound(stage)
    ensures Shown(StageStep(m, stage, names), out, names) && Source(out) == Source(cs)
    ensures SameLengths(cs) && KeepsLengths(stage) ==> SameLengths(out)
  {
    var text := m.out;
    var kept := Kept(stage, text);
    forall c | c in kept ensures ClearOf(cs, c.from - 0, c.to - 0) { KeptClear(stage, text, cs, c); }
    FromZero(text, Text(cs));
    out := SpliceCells(text, 0, cs, kept, names);
    if SameLengths(cs) && KeepsLengths(stage) { KeptLengths(stage, text); }
  }

  lemma {:induction false} NamedMore(cs: seq<Cell>, names: Naming, hits: seq<string>, more: seq<string>)
    requires Named(cs, names, hits) && forall h :: h in hits ==> h in more
    ensures Named(cs, names, more)
  {
  }

  /** Each occurrence of the text is spelled as its key, the text. */
  lemma {:induction false} OccurrencesExact(text: string, t: string)
    ensures var kept := Occurrences(text, 0, t);
            Exact(kept, text) && KeyLengths(kept) && forall h :: h in KeysOf(kept) ==> h == t
  {
    var kept := Occurrences(text, 0, t);
    forall i | 0 <= i < |kept| ensures kept[i] == CandAt(kept[i].start, t) && OccursAt(text, kept[i].start, t) {
      assert kept[i] in kept;
    }
  }

  lemma {:induction false} OccurrencesNamed(cs: seq<Cell>, names: Naming, hits: seq<string>, text: string, t: string)
    requires Named(cs, names, hits + KeysOf(Occurrences(text, 0, t)))
    ensures Named(cs, names, hits + [t])
  {
    OccurrencesExact(text, t);
    NamedMore(cs, names, hits + KeysOf(Occurrences(text, 0, t)), hits + [t]);
  }

  lemma {:induction false} OccurrencesClear(text: string, t: string, cs: seq<Cell>)
    requires text == Text(cs) && ValidCells(cs) && !Hurts(t, text)
    ensures forall c :: c in Occurrences(text, 0, t) ==> ClearOf(cs, c.from - 0, c.to - 0)
  {
    forall c | c in Occurrences(text, 0, t) ensures ClearOf(cs, c.from - 0, c.to - 0) {
      assert c == CandAt(c.start, t);
      ClearFromStart(text, cs, c);
    }
  }

  /** One text replaced everywhere, which touches no placeholder. */
  lemma {:induction false} TextCells(m: Masked, t: string, names: Naming, cs: seq<Cell>) returns (out: seq<Cell>)
    requires Shown(m, cs, names) && SafeNames(names) && !Hurts(t, m.out)
    ensures Shown(TextStep(m, t, names), out, names) && Source(out) == Source(cs)
    ensures SameLengths(cs) ==> SameLengths(out)
  {
    var kept := Occurrences(m.out, 0, t);
    OccurrencesClear(m.out, t, cs);
    FromZero(m.out, Text(cs));
    out := SpliceCells(m.out, 0, cs, kept, names);
    OccurrencesExact(m.out, t);
    OccurrencesNamed(out, names, m.hits, m.out, t);
  }

  lemma {:induction false} TextsCells(m: Masked, ts: seq<string>, names: Naming, cs: seq<Cell>) returns (out: seq<Cell>)
    requires Shown(m, cs, names) && SafeNames(names) && Spares(m, ts, names)
    ensures Shown(TextSteps(m, ts, names), out, names) && Source(out) == Source(cs)
    ensures SameLengths(cs) ==> SameLengths(out)
    decreases |ts|
  {
    if ts == [] {
      out := cs;
    } else {
      var mid := TextCells(m, ts[0], names, cs);
      out := TextsCells(TextStep(m, ts[0], names), ts[1..], names, mid);
    }
  }

  /** The keys a stage puts are as long as what it matched. */
  ghost predicate KeepsLengths(stage: Stage) {
    !stage.Everywhere? ==> forall s, c :: c in stage.find(s) ==> c.from <= c.to && |c.key| == c.to - c.from
  }

  ghost predicate LengthsKept(stages: seq<Stage>) {
    forall i :: 0 <= i < |stages| ==> KeepsLengths(stages[i])
  }

  lemma {:induction false} KeptLengths(stage: Stage, text: string)
    requires !stage.Everywhere? && KeepsLengths(stage)
    ensures KeyLengths(Kept(stage, text))
  {
    var found, phs, kept := stage.find(text), StrictSpans(text), Kept(stage, text);
    assert Ascending(found, |text|);
    KeepClearSome(found, phs, |text|);
    KeepOutsideSome(found, phs, |text|);
    forall i | 0 <= i < |kept| ensures kept[i].from <= kept[i].to && |kept[i].key| == kept[i].to - kept[i].from {
      assert kept[i] in kept && kept[i] in found;
    }
  }

  lemma {:induction false} LengthsTail(stages: seq<Stage>)
    requires stages != []
    ensures LengthsKept(stages) ==> KeepsLengths(stages[0]) && LengthsKept(stages[1..])
  {
  }

  /** The loop invariant of `mask`, over any sequence of stages. */
  lemma {:induction false} MaskCells(m: Masked, stages: seq<Stage>, names: Naming, cs: seq<Cell>) returns (out: seq<Cell>)
    requires Shown(m, cs, names) && SafeNames(names) && SoundFrom(m, stages, names)
    ensures Shown(MaskFrom(m, stages, names), out, names) && Source(out) == Source(cs)
    ensures SameLengths(cs) && LengthsKept(stages) ==> SameLengths(out)
    decreases |stages|
  {
    if stages == [] {
      out := cs;
    } else {
      LengthsTail(stages);
      var mid := StageCells(m, stages[0], names, cs);
      out := MaskCells(StageStep(m, stages[0], names), stages[1..], names, mid);
    }
  }

  function CharCells(s: string): (cs: seq<Cell>)
    ensures |cs| == |s| && forall i :: 0 <= i < |s| ==> cs[i] == Char(s[i])
  {
    seq(|s|, i requires 0 <= i < |s| => Char(s[i]))
  }

  lemma {:induction false} CharCellsText(s: string)
    ensures Text(CharCells(s)) == s && Source(CharCells(s)) == s
  {
    if s != [] {
      assert CharCells(s)[1..] == CharCells(s[1..]);
      CharCellsText(s[1..]);
      assert [s[0]] + s[1..] == s;
    }
  }

  // ------------------------------------------------------------- the first pass back

  /** A successful try of the double-brace pattern, taken apart. */
  ghost predicate TryAt(t: string, n: nat, w: nat) {
    && 1 <= n && LabelSuffix(t, n, IsWordChar)
    && n + 9 + w <= |t| && w == Run(t[n + 7..], IsWhite, |t|)
    && t[n + 7 + w] == '}' && t[n + 8 + w] == '}'
  }

  lemma {:induction false} BracedTryShape(t: string, max: nat) returns (n: nat, w: nat)
    requires BracedTry(t, max).Some?
    ensures n <= max && TryAt(t, n, w)
    ensures BracedTry(t, max) == Some(Match(n + 9 + w, t[..n], t[n + 1..n + 7]))
  {
    n := max;
    w := if LabelSuffix(t, max, IsWordChar) then Run(t[max + 7..], IsWhite, |t|) else 0;
    if !TryAt(t, n, w) { n, w := BracedTryShape(t, max - 1); }
  }

  lemma {:induction false} TryBraceFree(t: string, n: nat, w: nat)
    requires TryAt(t, n, w)
    ensures '{' !in t[..n + 9 + w]
  {
    RunAll(t[n + 7..], IsWhite, |t|);
    var q := n + 7 + w;
    forall i | 0 <= i < q + 2 ensures t[i] != '{' {
      if i < n { assert t[i] == t[..n][i]; }
      else if n < i < n + 7 { assert t[i] == t[n + 1..n + 7][i - n - 1]; }
      else if n + 7 <= i < q { assert t[i] == t[n + 7..][..w][i - n - 7]; }
    }
  }

  /** The double-brace match has its only opening braces at its head. */
  lemma {:induction false} BracedShape(s: string)
    requires Braced(s).Some?
    ensures var m := Braced(s).value; 11 <= m.len <= |s| && '{' !in s[2..m.len] && s[0] == '{'
  {
    var p := 2 + Run(s[2..], IsWhite, |s|);
    var n, w := BracedTryShape(s[p..], AtMost(12, s[p..]));
    TryBraceFree(s[p..], n, w);
    var e := p + n + 9 + w;
    RunAll(s[2..], IsWhite, |s|);
    SliceParts(s, 2, p, e);
    assert '{' !in s[2..][..p - 2];
  }

  /** The same try succeeds on any text with the same beginning. */
  lemma {:induction false} TryAgain(t: string, u: string, n: nat, w: nat, max: nat)
    requires TryAt(t, n, w) && n + 9 + w <= |u| && u[..n + 9 + w] == t[..n + 9 + w] && n <= max
    ensures BracedTry(u, max) == Some(Match(n + 9 + w, t[..n], t[n + 1..n + 7]))
  {
    SameHead(t, u, n, w);
    if n < max {
      LongerFails(u, n, w, max);
      TryAgain(t, u, n, w, max - 1);
    }
  }

  lemma {:induction false} SameHead(t: string, u: string, n: nat, w: nat)
    requires TryAt(t, n, w) && n + 9 + w <= |u| && u[..n + 9 + w] == t[..n + 9 + w]
    ensures TryAt(u, n, w) && u[..n] == t[..n] && u[n + 1..n + 7] == t[n + 1..n + 7]
  {
    var e := n + 9 + w;
    SameSlice(t, u, e, 0, n);
    SameSlice(t, u, e, n + 1, n + 7);
    SameElement(t, u, e, n);
    SameElement(t, u, e, n + 7 + w);
    SameElement(t, u, e, n + 8 + w);
    RunAll(t[n + 7..], IsWhite, |t|);
    var v := u[n + 7..];
    forall i | 0 <= i < w ensures IsWhite(v[i]) {
      SameElement(t, u, e, n + 7 + i);
      assert t[n + 7 + i] == t[n + 7..][..w][i];
    }
    RunLength(v, IsWhite, |u|, w);
  }

  /** No longer label can be split off. */
  lemma {:induction false} LongerFails(u: string, n: nat, w: nat, max: nat)
    requires TryAt(u, n, w) && n < max
    ensures !LabelSuffix(u, max, IsWordChar)
  {
    var c := u[n + 7];
    if w > 0 { assert c == u[n + 7..][0]; }
    assert !IsWordChar(c);
    if max > n + 7 && max + 7 <= |u| { assert u[..max][n + 7] == c; }
    else if max <= n + 6 { assert u[max] == u[n + 1..n + 7][max - n - 1]; }
  }

  /** Whether the double-brace pattern matches depends on the matched text only. */
  lemma {:induction false} BracedLocal(s: string, s': string)
    requires Braced(s).Some? && Braced(s).value.len <= |s'|
    requires s'[..Braced(s).value.len] == s[..Braced(s).value.len]
    ensures Braced(s') == Braced(s)
  {
    var p := 2 + Run(s[2..], IsWhite, |s|);
    var t := s[p..];
    var n, w := BracedTryShape(t, AtMost(12, t));
    var e := p + n + 9 + w;
    var h := s[..e];
    assert s'[..e] == h;
    HeadWhite(s, s', p, e);
    assert s'[p..][..n + 9 + w] == h[p..] == t[..n + 9 + w];
    TryAgain(t, s'[p..], n, w, AtMost(12, s'[p..]));
    assert s'[0] == h[0] && s'[1] == h[1];
  }

  lemma {:induction false} HeadWhite(s: string, s': string, p: nat, e: nat)
    requires 2 <= p < e <= |s| && e <= |s'| && s'[..e] == s[..e] && p == 2 + Run(s[2..], IsWhite, |s|)
    requires !IsWhite(s[p])
    ensures Run(s'[2..], IsWhite, |s'|) == p - 2
  {
    RunAll(s[2..], IsWhite, |s|);
    forall i | 0 <= i < p - 2 ensures IsWhite(s'[2..][i]) {
      assert s'[2 + i] == s'[..e][2 + i] == s[2..][..p - 2][i];
    }
    assert s'[p] == s'[..e][p] == s[p];
    RunLength(s'[2..], IsWhite, |s'|, p - 2);
  }

  // ------------------------------------------------------------------ the round trip

  /** No double-brace shape in the text stands for anything: nothing of it would be replaced on the way back. */
  ghost predicate NoBracedHit(text: string, r: Restore.Resolver) {
    forall j :: 0 <= j <= |text| && Braced(text[j..]).Some? ==>
      r.Found(Canonicalize(Braced(text[j..]).value.tag, Braced(text[j..]).value.suffix)).None?
  }

  lemma {:induction false} NoBracedHitDrop(a: string, b: string, r: Restore.Resolver)
    requires NoBracedHit(a + b, r)
    ensures NoBracedHit(b, r)
  {
    forall j | 0 <= j <= |b| && Braced(b[j..]).Some?
      ensures r.Found(Canonicalize(Braced(b[j..]).value.tag, Braced(b[j..]).value.suffix)).None?
    {
      assert (a + b)[|a| + j..] == b[j..];
    }
  }

  /** The session resolves each placeholder it issued to the key it was issued for. */
  ghost predicate Resolves(cs: seq<Cell>, r: Restore.Resolver) {
    forall k :: 0 <= k < |cs| && cs[k].Issued? ==> r.Found(Token(cs[k].tag, cs[k].suffix)) == Some(cs[k].key)
  }

  lemma {:induction false} FirstPassIssued(cs: seq<Cell>, r: Restore.Resolver)
    requires cs != [] && cs[0].Issued? && ValidCells(cs) && Resolves(cs, r)
    ensures Restore.Scan(Text(cs), Restore.BracedEditor(r)) == cs[0].key + Restore.Scan(Text(cs[1..]), Restore.BracedEditor(r))
  {
    IssuedText(cs);
    BracedToken(Text(cs), cs[0].tag, cs[0].suffix);
    CanonicalFixed(cs[0].tag, cs[0].suffix);
  }

  /** The first pass over the masked text puts every key in place and touches nothing else. */
  lemma {:induction false} FirstPassKeys(cs: seq<Cell>, r: Restore.Resolver)
    requires ValidCells(cs) && Resolves(cs, r) && NoBracedHit(Source(cs), r)
    ensures Restore.Scan(Text(cs), Restore.BracedEditor(r)) == Keys(cs)
    decreases |cs|
  {
    if cs != [] {
      if cs[0].Issued? {
        FirstPassIssued(cs, r);
        NoBracedHitDrop(cs[0].src, Source(cs[1..]), r);
        FirstPassKeys(cs[1..], r);
      } else {
        var k := FirstPassChars(cs, r);
        FirstPassKeys(cs[k..], r);
        CharsView(cs, k, CellText);
        CharsView(cs, k, CellKey);
        Halves(Keys(cs), k);
      }
    }
  }

  lemma {:induction false} BracedInSource(cs: seq<Cell>, k: nat)
    requires Chars(cs, k) && Braced(Text(cs)).Some? && Braced(Text(cs)).value.len == k
    ensures Braced(Source(cs)) == Braced(Text(cs))
  {
    CharsView(cs, k, CellText);
    CharsView(cs, k, CellSource);
    BracedLocal(Text(cs), Source(cs));
  }

  /** At a character, the pass steps over some characters and leaves them as they are. */
  lemma {:induction false} FirstPassChars(cs: seq<Cell>, r: Restore.Resolver) returns (k: nat)
    requires cs != [] && cs[0].Char? && ValidCells(cs) && NoBracedHit(Source(cs), r)
    ensures 0 < k && Chars(cs, k) && k <= |Text(cs)|
    ensures Restore.Scan(Text(cs), Restore.BracedEditor(r))
         == Text(cs)[..k] + Restore.Scan(Text(cs[k..]), Restore.BracedEditor(r))
    ensures NoBracedHit(Source(cs[k..]), r)
  {
    var s := Text(cs);
    k := 1;
    if Braced(s).Some? {
      BracedShape(s);
      k := Braced(s).value.len;
      CharsOnly(cs, k);
      BracedInSource(cs, k);
      Whole(Source(cs));
    }
    CharsView(cs, k, CellText);
    CharsView(cs, k, CellSource);
    Halves(Source(cs), k);
    NoBracedHitDrop(Source(cs)[..k], Source(cs[k..]), r);
  }

  lemma {:induction false} ExactKeys(cs: seq<Cell>)
    requires AllExact(cs)
    ensures Keys(cs) == Source(cs)
  {
    if cs != [] { ExactKeys(cs[1..]); }
  }

  /** What masking leaves: cells over the whole text. */
  lemma {:induction false} MaskView(text: string, stages: seq<Stage>, names: Naming) returns (cs: seq<Cell>)
    requires Sound(text, stages, names) && SafeNames(names)
    ensures Shown(Mask(text, stages, names), cs, names) && Source(cs) == text
    ensures LengthsKept(stages) ==> SameLengths(cs)
  {
    CharCellsText(text);
    assert AllExact(CharCells(text));
    cs := MaskCells(Masked(text, [], true), stages, names, CharCells(text));
  }

  /** Every original hit during masking is what its placeholder resolves to. */
  ghost predicate SessionResolves(m: Masked, names: Naming, r: Restore.Resolver) {
    forall key :: key in m.hits ==> r.Found(NameToken(names, key)) == Some(key)
  }

  lemma {:induction false} ResolvesCells(m: Masked, names: Naming, r: Restore.Resolver, cs: seq<Cell>)
    requires Shown(m, cs, names) && SessionResolves(m, names, r)
    ensures Resolves(cs, r)
  {
    forall k | 0 <= k < |cs| && cs[k].Issued?
      ensures r.Found(Token(cs[k].tag, cs[k].suffix)) == Some(cs[k].key)
    {
      assert cs[k].key in m.hits;
    }
  }

  /**
   Text round trip for any sequence of rules and words. If every word hit was spelled as
   configured and the original text has no live placeholder shape of its own, restoring
   the masked text in the same session gives the original text back.
   */
  lemma {:induction false} MaskRoundTrip(text: string, stages: seq<Stage>, names: Naming, r: Restore.Resolver)
    requires Sound(text, stages, names) && SafeNames(names)
    requires var m := Mask(text, stages, names); m.exact && SessionResolves(m, names, r)
    requires NoBracedHit(text, r)
    requires Restore.Scan(text, Restore.EscapedEditor(r)) == text && Restore.Scan(text, Restore.LooseEditor(r)) == text
    ensures Restore.RestoreFinal(Mask(text, stages, names).out, r) == text
  {
    var m := Mask(text, stages, names);
    var cs := MaskView(text, stages, names);
    ResolvesCells(m, names, r, cs);
    ExactKeys(cs);
    FirstPassKeys(cs, r);
    if '{' !in m.out { NothingIssued(cs); }
    LaterPassesIdle(m.out, text, r);
  }

  lemma {:induction false} LaterPassesIdle(out: string, text: string, r: Restore.Resolver)
    requires Restore.Scan(out, Restore.BracedEditor(r)) == text && ('{' !in out ==> out == text)
    requires Restore.Scan(text, Restore.EscapedEditor(r)) == text && Restore.Scan(text, Restore.LooseEditor(r)) == text
    ensures Restore.RestoreFinal(out, r) == text
  {
  }

  /** Masked text without an opening brace is the original text, and no key is in it. */
  lemma {:induction false} NothingIssued(cs: seq<Cell>)
    requires '{' !in Text(cs)
    ensures Text(cs) == Source(cs) && Text(cs) == Keys(cs)
  {
    Whole(Text(cs));
    NoBraceChars(cs, |Text(cs)|);
    var n := |Text(cs)|;
    CharsView(cs, n, CellText);
    CharsView(cs, n, CellSource);
    CharsView(cs, n, CellKey);
    EmptyText(cs[n..], |cs[n..]|) by { Whole(cs[n..]); }
    Whole(Source(cs));
    Whole(Keys(cs));
  }

  lemma {:induction false} KeysSourceExact(cs: seq<Cell>)
    requires SameLengths(cs)
    ensures |Keys(cs)| == |Source(cs)| && (Keys(cs) == Source(cs) <==> AllExact(cs))
  {
    if cs != [] {
      var t := cs[1..];
      assert forall k :: 0 <= k < |t| ==> t[k] == cs[k + 1];
      KeysSourceExact(t);
      Seam(CellKey(cs[0]), Keys(t));
      Seam(CellSource(cs[0]), Source(t));
      assert cs == [cs[0]] + t;
      ExactParts([cs[0]], t);
      assert [cs[0]][0] == cs[0];
    }
  }

  /** Every match a stage keeps is spelled as its key, in the text that stage is given, and so on. */
  ghost predicate Spelled(text: string, stages: seq<Stage>, names: Naming)
    decreases |stages|
  {
    stages != [] ==>
      && (!stages[0].Everywhere? ==> Exact(Kept(stages[0], text), text))
      && Spelled(StageStep(Masked(text, [], true), stages[0], names).out, stages[1..], names)
  }

  lemma {:induction false} TextStepsOut(m: Masked, ts: seq<string>, names: Naming)
    ensures TextSteps(m, ts, names).out == TextSteps(Masked(m.out, [], true), ts, names).out && TextSteps(m, ts, names).exact == m.exact
    decreases |ts|
  {
    if ts != [] {
      var u := Masked(m.out, [], true);
      TextStepsOut(TextStep(m, ts[0], names), ts[1..], names);
      TextStepsOut(TextStep(u, ts[0], names), ts[1..], names);
    }
  }

  /** What a stage makes of the text depends on the text only. */
  lemma {:induction false} StepApart(m: Masked, stage: Stage, names: Naming)
    ensures StageStep(m, stage, names).out == StageStep(Masked(m.out, [], true), stage, names).out
    ensures StageStep(m, stage, names).exact <==> m.exact && (!stage.Everywhere? ==> Exact(Kept(stage, m.out), m.out))
  {
    if stage.Everywhere? { TextStepsOut(m, stage.texts(m.out), names); }
  }

  lemma {:induction false} ExactIsSpelled(m: Masked, stages: seq<Stage>, names: Naming)
    ensures MaskFrom(m, stages, names).exact <==> m.exact && Spelled(m.out, stages, names)
    decreases |stages|
  {
    if stages != [] {
      StepApart(m, stages[0], names);
      ExactIsSpelled(StageStep(m, stages[0], names), stages[1..], names);
    }
  }

  /** Neither of the two later passes changes the text. */
  ghost predicate LaterIdle(text: string, r: Restore.Resolver) {
    Restore.Scan(text, Restore.EscapedEditor(r)) == text && Restore.Scan(text, Restore.LooseEditor(r)) == text
  }

  /**
   Exactly when it works. Words match without regard to letter case but come back in the
   configured spelling: restoring gives the original text back if and only if every match
   kept at every stage was spelled as its key. What it gives otherwise is the text in the
   configured spelling, which the later passes must leave alone.
   */
  lemma {:induction false} RestoreInvertsIff(text: string, stages: seq<Stage>, names: Naming, r: Restore.Resolver)
    requires Sound(text, stages, names) && SafeNames(names) && LengthsKept(stages)
    requires SessionResolves(Mask(text, stages, names), names, r) && NoBracedHit(text, r)
    requires LaterIdle(Restore.Scan(Mask(text, stages, names).out, Restore.BracedEditor(r)), r)
    ensures Restore.RestoreFinal(Mask(text, stages, names).out, r) == text <==> Spelled(text, stages, names)
    ensures Restore.RestoreFinal(Mask(text, stages, names).out, r) == Restore.Scan(Mask(text, stages, names).out, Restore.BracedEditor(r))
  {
    var m := Mask(text, stages, names);
    var cs := MaskView(text, stages, names);
    ExactIsSpelled(Masked(text, [], true), stages, names);
    ResolvesCells(m, names, r, cs);
    FirstPassKeys(cs, r);
    KeysSourceExact(cs);
    if '{' !in m.out { NothingIssued(cs); }
    LaterPassesIdle(m.out, Keys(cs), r);
  }

  // ------------------------------------------------------------ another letter case

  /** A word that matches, in any letter case, where it is the whole text. */
  function WholeWord(w: string): Finder {
    s => if s != "" && Lower(s) == Lower(w) then [Cand(0, |s|, 0, |s|, w)] else []
  }

  lemma {:induction false} NoSpans(text: string)
    requires '{' !in text
    ensures StrictSpans(text) == []
  {
    if StrictSpans(text) != [] { SpanEnds(text, 0); }
  }

  lemma {:induction false} SpliceWhole(v: string, put: string)
    ensures Splice(v, 0, [Edit(0, |v|, put)]) == put
  {
    var es := [Edit(0, |v|, put)];
    assert es[1..] == [] && v[0..0] == "" && v[|v|..] == "";
    assert Splice(v, |v|, es[1..]) == "";
    assert Splice(v, 0, es) == v[0..0] + put + "";
  }

  lemma {:induction false} KeptWhole(v: string, w: string)
    requires v != "" && Lower(v) == Lower(w) && '{' !in v
    ensures Kept(Words(WholeWord(w)), v) == [Cand(0, |v|, 0, |v|, w)]
  {
    var cs := [Cand(0, |v|, 0, |v|, w)];
    NoSpans(v);
    assert WholeWord(w)(v) == cs;
    assert cs[1..] == [] && KeepOutside(cs[1..], []) == [];
    assert KeepOutside(cs, []) == cs;
  }

  lemma {:induction false} OneEdit(v: string, w: string, names: Naming)
    ensures var cs := [Cand(0, |v|, 0, |v|, w)];
            && Edits(cs, names) == [Edit(0, |v|, NameToken(names, w))] && KeysOf(cs) == [w] && (Exact(cs, v) <==> v == w)
  {
    var cs := [Cand(0, |v|, 0, |v|, w)];
    assert v[0..|v|] == v;
    assert cs[0].key == v[cs[0].from..cs[0].to] <==> v == w;
  }

  /** A stage that keeps one match, the whole text. */
  lemma {:induction false} WholeStep(v: string, w: string, stage: Stage, names: Naming, cs: seq<Cand>)
    requires !stage.Everywhere? && cs == [Cand(0, |v|, 0, |v|, w)] && Kept(stage, v) == cs
    ensures StageStep(Masked(v, [], true), stage, names) == Masked(NameToken(names, w), [w], v == w)
  {
    SpliceWhole(v, NameToken(names, w));
    OneEdit(v, w, names);
    assert [] + KeysOf(cs) == KeysOf(cs);
  }

  lemma {:induction false} WholeWordMasked(v: string, w: string, names: Naming)
    requires v != "" && Lower(v) == Lower(w) && '{' !in v
    ensures Mask(v, [Words(WholeWord(w))], names) == Masked(NameToken(names, w), [w], v == w)
  {
    KeptWhole(v, w);
    WholeStep(v, w, Words(WholeWord(w)), names, [Cand(0, |v|, 0, |v|, w)]);
    OneStage(Masked(v, [], true), Words(WholeWord(w)), names);
  }

  lemma {:induction false} OneStage(m: Masked, stage: Stage, names: Naming)
    ensures MaskFrom(m, [stage], names) == StageStep(m, stage, names)
  {
    var stages := [stage];
    assert stages[1..] == [];
    assert MaskFrom(m, stages, names) == MaskFrom(StageStep(m, stage, names), stages[1..], names);
  }

  /** Any word, written in any other letter case, does not come back: its configured spelling does. */
  lemma {:induction false} OtherSpelling(v: string, w: string, names: Naming, r: Restore.Resolver)
    requires v != w && v != "" && Lower(v) == Lower(w) && '{' !in v && BraceFree(w) && '_' !in w
    requires SafeNames(names) && r.Found(NameToken(names, w)) == Some(w)
    ensures Restore.RestoreFinal(Mask(v, [Words(WholeWord(w))], names).out, r) == w
    ensures !Spelled(v, [Words(WholeWord(w))], names)
  {
    WholeWordMasked(v, w, names);
    ExactIsSpelled(Masked(v, [], true), [Words(WholeWord(w))], names);
    Restore.OneToken(names(w).0, names(w).1, w, r);
  }

  /** For instance these. */
  lemma {:induction false} AcmeOtherSpelling()
    ensures "ACME" != "Acme" && Lower("ACME") == Lower("Acme")
  {
    assert "ACME"[1] != "Acme"[1];
  }
}
