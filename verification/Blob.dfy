/**
 Blob externalisation, src/mask/blob.rs: large encoded values of a body are swapped for
 short tokens before parsing and swapped back before forwarding. Everything is bytes.
 */
module Blobs {
  import opened Wrappers
  import opened Seqs
  import opened Utf8Stream

  type Bytes = seq<Byte>

  const QUOTE: Byte := 34
  const BACKSLASH: Byte := 92
  const COLON: Byte := 58

  // ------------------------------------------------------------------------ search

  predicate Occurs(text: Bytes, pat: Bytes, p: nat) { p + |pat| <= |text| && text[p..p + |pat|] == pat }

  /** contains */
  predicate Contains(text: Bytes, pat: Bytes) { exists p :: 0 <= p <= |text| && Occurs(text, pat, p) }

  /** `str::replace`: every match from the left, none overlapping. */
  function Replace(text: Bytes, pat: Bytes, with: Bytes): Bytes
    requires pat != []
    decreases |text|
  {
    if text == [] then []
    else if Occurs(text, pat, 0) then with + Replace(text[|pat|..], pat, with)
    else [text[0]] + Replace(text[1..], pat, with)
  }

  /** A quote stands on one side of the seam. */
  predicate Quoted(a: Bytes, b: Bytes) { (a != [] && a[|a| - 1] == QUOTE) || (b != [] && b[0] == QUOTE) }

  /** A quote is nowhere in an occurrence of a pattern without quotes. */
  lemma {:induction false} NoQuoteInside(t: Bytes, pat: Bytes, p: nat, q: nat)
    requires QUOTE !in pat && Occurs(t, pat, p) && q < |t| && t[q] == QUOTE
    ensures q < p || p + |pat| <= q
  {
    InSlice(t, q, p, p + |pat|);
  }

  /** A pattern without quotes does not reach over a quoted seam. */
  lemma {:induction false} OccursSplit(a: Bytes, b: Bytes, pat: Bytes, p: nat)
    requires Quoted(a, b) && pat != [] && QUOTE !in pat && Occurs(a + b, pat, p)
    ensures if p < |a| then Occurs(a, pat, p) else Occurs(b, pat, p - |a|)
  {
    var t := a + b;
    var q := if a != [] && a[|a| - 1] == QUOTE then |a| - 1 else |a|;
    NoQuoteInside(t, pat, p, q);
    if p < |a| {
      assert t[p..p + |pat|] == a[p..p + |pat|];
    } else {
      assert t[p..p + |pat|] == b[p - |a|..p - |a| + |pat|];
    }
  }

  lemma {:induction false} AbsentConcat(a: Bytes, b: Bytes, pat: Bytes)
    requires Quoted(a, b) && pat != [] && QUOTE !in pat && !Contains(a, pat) && !Contains(b, pat)
    ensures !Contains(a + b, pat)
  {
    if p :| 0 <= p <= |a + b| && Occurs(a + b, pat, p) {
      OccursSplit(a, b, pat, p);
      if p < |a| { assert Contains(a, pat); } else { assert Contains(b, pat); }
    }
  }

  lemma {:induction false} AbsentSlice(text: Bytes, pat: Bytes, i: nat, j: nat)
    requires i <= j <= |text| && !Contains(text, pat)
    ensures !Contains(text[i..j], pat)
  {
    if p :| 0 <= p <= j - i && Occurs(text[i..j], pat, p) {
      SliceSlice(text, i, j, p, p + |pat|);
      assert Occurs(text, pat, i + p);
    }
  }

  /** What contains the larger pattern contains the smaller one. */
  lemma {:induction false} AbsentLonger(text: Bytes, pat: Bytes, pre: Bytes, post: Bytes)
    requires !Contains(text, pat)
    ensures !Contains(text, pre + pat + post)
  {
    var longer := pre + pat + post;
    if p :| 0 <= p <= |text| && Occurs(text, longer, p) {
      var q := p + |pre|;
      SliceSlice(text, p, p + |longer|, |pre|, |pre| + |pat|);
      assert longer[|pre|..|pre| + |pat|] == pat;
      assert Occurs(text, pat, q);
    }
  }

  lemma {:induction false} AbsentTail(text: Bytes, pat: Bytes)
    requires text != [] && !Contains(text, pat)
    ensures !Occurs(text, pat, 0) && !Contains(text[1..], pat)
  {
    AbsentSlice(text, pat, 1, |text|);
    assert text[1..|text|] == text[1..];
  }

  lemma {:induction false} ReplaceAbsent(text: Bytes, pat: Bytes, with: Bytes)
    requires pat != [] && !Contains(text, pat)
    ensures Replace(text, pat, with) == text
    decreases |text|
  {
    if text != [] {
      AbsentTail(text, pat);
      ReplaceAbsent(text[1..], pat, with);
    }
  }

  lemma {:induction false} ReplaceBehind(a: Bytes, b: Bytes, pat: Bytes, with: Bytes)
    requires pat != [] && QUOTE !in pat && !Contains(a, pat) && (a != [] ==> Quoted(a, b))
    ensures Replace(a + b, pat, with) == a + Replace(b, pat, with)
    decreases |a|
  {
    if a == [] {
      assert a + b == b;
    } else {
      NotFirst(a, b, pat);
      assert (a + b)[1..] == a[1..] + b;
      ReplaceBehind(a[1..], b, pat, with);
    }
  }

  lemma {:induction false} NotFirst(a: Bytes, b: Bytes, pat: Bytes)
    requires pat != [] && QUOTE !in pat && !Contains(a, pat) && a != [] && Quoted(a, b)
    ensures !Occurs(a + b, pat, 0) && !Contains(a[1..], pat) && (a[1..] != [] ==> Quoted(a[1..], b))
  {
    if Occurs(a + b, pat, 0) { OccursSplit(a, b, pat, 0); }
    AbsentTail(a, pat);
    if |a| > 1 { assert a[1..][|a| - 2] == a[|a| - 1]; }
  }

  /** A pattern that stands once, between quotes, is replaced there and nowhere else. */
  lemma {:induction false} ReplaceOnce(a: Bytes, pat: Bytes, b: Bytes, with: Bytes)
    requires pat != [] && QUOTE !in pat && !Contains(a, pat) && !Contains(b, pat)
    requires a != [] && a[|a| - 1] == QUOTE
    ensures Replace(a + (pat + b), pat, with) == a + (with + b) && Contains(a + (pat + b), pat)
  {
    ReplaceBehind(a, pat + b, pat, with);
    Seam(pat, b);
    assert Occurs(pat + b, pat, 0);
    ReplaceAbsent(b, pat, with);
    var t := a + (pat + b);
    assert t[|a|..|a| + |pat|] == pat;
    assert Occurs(t, pat, |a|);
  }

  // ------------------------------------------------------------------------ tokens

  function Ascii(s: string): (b: Bytes)
    requires forall i :: 0 <= i < |s| ==> s[i] < '\U{80}'
    ensures |b| == |s| && forall i :: 0 <= i < |s| ==> b[i] == s[i] as int
  {
    seq(|s|, i requires 0 <= i < |s| => s[i] as int)
  }

  function Digit(n: nat): Byte { 48 + n % 10 }

  /** The last six digits of a number. */
  function Six(n: nat): Bytes {
    [Digit(n / 100000), Digit(n / 10000), Digit(n / 1000), Digit(n / 100), Digit(n / 10), Digit(n)]
  }

  const MAX_BLOBS: nat := 1000000

  /** `{:06}`: six digits, more only from a million on. */
  function Padded(n: nat): Bytes { if n < MAX_BLOBS then Six(n) else Padded(n / 10) + [Digit(n)] }

  predicate IsDigits(b: Bytes) { forall i :: 0 <= i < |b| ==> 48 <= b[i] < 58 }

  lemma {:induction false} PaddedDigits(n: nat)
    ensures IsDigits(Padded(n)) && |Padded(n)| >= 6
  {
    if n >= MAX_BLOBS { PaddedDigits(n / 10); }
  }

  function Head(): Bytes { Ascii("kmb-") }
  function Dash(): Bytes { Ascii("-") }

  /** `kmb-{nonce}-{idx:06}` */
  function BlobToken(nonce: Bytes, n: nat): Bytes { Head() + nonce + (Dash() + Padded(n)) }

  function Value(d: Byte): int { d as int - 48 }

  lemma {:induction false} SixValue(n: nat)
    requires n < MAX_BLOBS
    ensures var d := Six(n);
            Value(d[0]) * 100000 + Value(d[1]) * 10000 + Value(d[2]) * 1000 + Value(d[3]) * 100 + Value(d[4]) * 10 + Value(d[5]) == n
  {
    assert n / 100000 < 10;
    assert n / 10000 == 10 * (n / 100000) + n / 10000 % 10;
    assert n / 1000 == 10 * (n / 10000) + n / 1000 % 10;
    assert n / 100 == 10 * (n / 1000) + n / 100 % 10;
    assert n / 10 == 10 * (n / 100) + n / 10 % 10;
  }

  /** Numbers below one million have tokens of one width, all different. */
  lemma {:induction false} TokensDiffer(nonce: Bytes, k: nat, n: nat)
    requires k < MAX_BLOBS && n < MAX_BLOBS && k != n
    ensures |BlobToken(nonce, k)| == |BlobToken(nonce, n)| && BlobToken(nonce, k) != BlobToken(nonce, n)
  {
    SixValue(k);
    SixValue(n);
    var h := Head() + nonce;
    assert BlobToken(nonce, k)[|h| + 1..] == Six(k);
    assert BlobToken(nonce, n)[|h| + 1..] == Six(n);
  }

  lemma {:induction false} TokenElsewhere(nonce: Bytes, k: nat, n: nat)
    requires k < MAX_BLOBS && n < MAX_BLOBS && k != n
    ensures !Contains(BlobToken(nonce, n), BlobToken(nonce, k))
  {
    TokensDiffer(nonce, k, n);
    var a, b := BlobToken(nonce, n), BlobToken(nonce, k);
    assert a[0..|a|] == a;
    forall p | 0 <= p <= |a| ensures !Occurs(a, b, p) {}
  }

  lemma {:induction false} TokenQuoteless(nonce: Bytes, n: nat)
    requires QUOTE !in nonce
    ensures QUOTE !in BlobToken(nonce, n) && BlobToken(nonce, n) != []
  {
    PaddedDigits(n);
    assert QUOTE !in Padded(n);
    assert QUOTE !in Head() && QUOTE !in Dash();
  }

  lemma {:induction false} TokenAbsent(text: Bytes, nonce: Bytes, n: nat)
    requires !Contains(text, nonce)
    ensures !Contains(text, BlobToken(nonce, n))
  {
    AbsentLonger(text, nonce, Head(), Dash() + Padded(n));
  }

  // ------------------------------------------------------------------------ weaving

  /** A stretch of text up to and with an opening quote, and the value behind it. */
  datatype Part = Part(gap: Bytes, content: Bytes)

  datatype Blob = Blob(token: Bytes, content: Bytes)

  /** The text with each value replaced by its token, numbered from n. */
  function Woven(ps: seq<Part>, last: Bytes, nonce: Bytes, n: nat): Bytes {
    if ps == [] then last else ps[0].gap + (BlobToken(nonce, n) + Woven(ps[1..], last, nonce, n + 1))
  }

  /** The text with its values in place. */
  function Plain(ps: seq<Part>, last: Bytes): Bytes {
    if ps == [] then last else ps[0].gap + (ps[0].content + Plain(ps[1..], last))
  }

  function BlobsOf(ps: seq<Part>, nonce: Bytes, n: nat): (bs: seq<Blob>)
    ensures |bs| == |ps|
  {
    if ps == [] then [] else [Blob(BlobToken(nonce, n), ps[0].content)] + BlobsOf(ps[1..], nonce, n + 1)
  }

  predicate Starts(t: Bytes) { t != [] && t[0] == QUOTE }
  predicate Ends(t: Bytes) { t != [] && t[|t| - 1] == QUOTE }

  /** Every value stands between quotes, and the nonce is nowhere. */
  ghost predicate Delimited(ps: seq<Part>, last: Bytes, nonce: Bytes) {
    && (forall i :: 0 <= i < |ps| ==> Ends(ps[i].gap) && !Contains(ps[i].gap, nonce) && !Contains(ps[i].content, nonce))
    && (forall i :: 1 <= i < |ps| ==> Starts(ps[i].gap))
    && (ps != [] ==> Starts(last)) && !Contains(last, nonce)
  }

  lemma {:induction false} DelimitedTail(ps: seq<Part>, last: Bytes, nonce: Bytes)
    requires ps != [] && Delimited(ps, last, nonce)
    ensures Delimited(ps[1..], last, nonce) && Ends(ps[0].gap) && Starts(Woven(ps[1..], last, nonce, 0))
    ensures forall n :: Starts(Woven(ps[1..], last, nonce, n))
  {
    var t := ps[1..];
    assert forall i :: 0 <= i < |t| ==> t[i] == ps[i + 1];
    if t != [] { assert Starts(ps[1].gap) && t[0] == ps[1]; }
  }

  /** A token is not in the text woven from later tokens. */
  lemma {:induction false} NotWoven(ps: seq<Part>, last: Bytes, nonce: Bytes, n: nat, k: nat)
    requires Delimited(ps, last, nonce) && QUOTE !in nonce && k < n && n + |ps| <= MAX_BLOBS
    ensures !Contains(Woven(ps, last, nonce, n), BlobToken(nonce, k))
    decreases |ps|
  {
    var tok := BlobToken(nonce, k);
    TokenQuoteless(nonce, k);
    if ps == [] {
      TokenAbsent(last, nonce, k);
    } else {
      DelimitedTail(ps, last, nonce);
      NotWoven(ps[1..], last, nonce, n + 1, k);
      TokenElsewhere(nonce, k, n);
      var w := Woven(ps[1..], last, nonce, n + 1);
      AbsentConcat(BlobToken(nonce, n), w, tok);
      TokenAbsent(ps[0].gap, nonce, k);
      AbsentConcat(ps[0].gap, BlobToken(nonce, n) + w, tok);
    }
  }

  // --------------------------------------------------------------------- reinjection

  ghost predicate HaveTokens(bs: seq<Blob>) { forall i :: 0 <= i < |bs| ==> bs[i].token != [] }

  /** reinject_checked */
  function Reinject(text: Bytes, bs: seq<Blob>): Option<Bytes>
    requires HaveTokens(bs)
    decreases |bs|
  {
    if bs == [] then Some(text)
    else if !Contains(text, bs[0].token) then None
    else Reinject(Replace(text, bs[0].token, bs[0].content), bs[1..])
  }

  method ReinjectChecked(text: Bytes, bs: seq<Blob>) returns (out: Option<Bytes>)
    requires HaveTokens(bs)
    ensures out == Reinject(text, bs)
  {
    var t := text;
    assert bs[0..] == bs;
    for i := 0 to |bs|
      invariant Reinject(text, bs) == Reinject(t, bs[i..])
    {
      assert bs[i..][0] == bs[i] && bs[i..][1..] == bs[i + 1..];
      if !Contains(t, bs[i].token) { return None; }
      t := Replace(t, bs[i].token, bs[i].content);
    }
    out := Some(t);
  }

  /** The next value put in place behind a restored prefix. */
  lemma {:induction false} PutOne(pre: Bytes, ps: seq<Part>, last: Bytes, nonce: Bytes, n: nat)
    requires ps != [] && Delimited(ps, last, nonce) && QUOTE !in nonce && nonce != [] && n + |ps| <= MAX_BLOBS
    requires !Contains(pre, nonce) && (pre != [] ==> Starts(ps[0].gap))
    ensures var done := pre + (ps[0].gap + ps[0].content);
            var t := pre + Woven(ps, last, nonce, n);
            && Contains(t, BlobToken(nonce, n)) && BlobToken(nonce, n) != []
            && Replace(t, BlobToken(nonce, n), ps[0].content) == done + Woven(ps[1..], last, nonce, n + 1)
            && !Contains(done, nonce) && (ps[1..] != [] ==> Starts(ps[1..][0].gap))
  {
    var tok, w := BlobToken(nonce, n), Woven(ps[1..], last, nonce, n + 1);
    var g, c := ps[0].gap, ps[0].content;
    DelimitedTail(ps, last, nonce);
    TokenQuoteless(nonce, n);
    NotWoven(ps[1..], last, nonce, n + 1, n);
    Assoc(pre, g, tok + w);
    PreAbsent(pre, g, c, nonce);
    TokenAbsent(pre + g, nonce, n);
    ReplaceOnce(pre + g, tok, w, c);
    Assoc(pre + g, c, w);
    Assoc(pre, g, c);
    if ps[1..] != [] { assert Starts(ps[1].gap); }
  }

  lemma {:induction false} PreAbsent(pre: Bytes, g: Bytes, c: Bytes, nonce: Bytes)
    requires !Contains(pre, nonce) && !Contains(g, nonce) && !Contains(c, nonce) && Ends(g) && (pre != [] ==> Starts(g))
    requires QUOTE !in nonce && nonce != []
    ensures !Contains(pre + g, nonce) && !Contains(pre + (g + c), nonce) && Ends(pre + g)
  {
    if pre == [] { assert pre + g == g; } else { AbsentConcat(pre, g, nonce); }
    AbsentConcat(pre + g, c, nonce);
    Assoc(pre, g, c);
  }

  lemma {:induction false} ReinjectStep(t: Bytes, u: Bytes, bs: seq<Blob>, b: Blob, more: seq<Blob>)
    requires HaveTokens(more) && b.token != [] && bs == [b] + more && Contains(t, b.token) && Replace(t, b.token, b.content) == u
    ensures HaveTokens(bs) && Reinject(t, bs) == Reinject(u, more)
  {
    assert bs[0] == b && bs[1..] == more;
  }

  lemma {:induction false} PlainStep(pre: Bytes, ps: seq<Part>, last: Bytes)
    requires ps != []
    ensures pre + (ps[0].gap + ps[0].content) + Plain(ps[1..], last) == pre + Plain(ps, last)
  {
    Assoc(pre, ps[0].gap + ps[0].content, Plain(ps[1..], last));
    Assoc(ps[0].gap, ps[0].content, Plain(ps[1..], last));
  }

  lemma {:induction false} BlobsHaveTokens(ps: seq<Part>, nonce: Bytes, n: nat)
    ensures HaveTokens(BlobsOf(ps, nonce, n))
  {
    if ps != [] {
      BlobsHaveTokens(ps[1..], nonce, n + 1);
      assert BlobToken(nonce, n) != [];
    }
  }

  function Done(pre: Bytes, ps: seq<Part>): Bytes
    requires ps != []
  {
    pre + (ps[0].gap + ps[0].content)
  }

  /** One turn of the loop: the first value is put in place and the others remain to be. */
  lemma {:induction false} PutStep(pre: Bytes, ps: seq<Part>, last: Bytes, nonce: Bytes, n: nat)
    requires ps != [] && Delimited(ps, last, nonce) && QUOTE !in nonce && nonce != [] && n + |ps| <= MAX_BLOBS
    requires !Contains(pre, nonce) && (pre != [] ==> Starts(ps[0].gap))
    ensures HaveTokens(BlobsOf(ps, nonce, n)) && HaveTokens(BlobsOf(ps[1..], nonce, n + 1))
    ensures Reinject(pre + Woven(ps, last, nonce, n), BlobsOf(ps, nonce, n))
         == Reinject(Done(pre, ps) + Woven(ps[1..], last, nonce, n + 1), BlobsOf(ps[1..], nonce, n + 1))
    ensures !Contains(Done(pre, ps), nonce) && (ps[1..] != [] ==> Starts(ps[1..][0].gap))
  {
    BlobsHaveTokens(ps[1..], nonce, n + 1);
    PutOne(pre, ps, last, nonce, n);
    ReinjectStep(pre + Woven(ps, last, nonce, n), Done(pre, ps) + Woven(ps[1..], last, nonce, n + 1), BlobsOf(ps, nonce, n),
                 Blob(BlobToken(nonce, n), ps[0].content), BlobsOf(ps[1..], nonce, n + 1));
  }

  lemma {:induction false} ReinjectFrom(pre: Bytes, ps: seq<Part>, last: Bytes, nonce: Bytes, n: nat)
    requires Delimited(ps, last, nonce) && QUOTE !in nonce && nonce != [] && n + |ps| <= MAX_BLOBS
    requires !Contains(pre, nonce) && (pre != [] && ps != [] ==> Starts(ps[0].gap))
    ensures HaveTokens(BlobsOf(ps, nonce, n))
    ensures Reinject(pre + Woven(ps, last, nonce, n), BlobsOf(ps, nonce, n)) == Some(pre + Plain(ps, last))
    decreases |ps|
  {
    if ps != [] {
      PutStep(pre, ps, last, nonce, n);
      DelimitedTail(ps, last, nonce);
      ReinjectFrom(Done(pre, ps), ps[1..], last, nonce, n + 1);
      PlainStep(pre, ps, last);
    }
  }

  /**
   Whatever masking did to the text around the tokens: as long as they stand in their quotes
   and the nonce is nowhere else, putting the values back puts each in its own place.
   */
  lemma {:induction false} WovenReinject(ps: seq<Part>, last: Bytes, nonce: Bytes)
    requires Delimited(ps, last, nonce) && QUOTE !in nonce && nonce != [] && |ps| <= MAX_BLOBS
    ensures HaveTokens(BlobsOf(ps, nonce, 0))
    ensures Reinject(Woven(ps, last, nonce, 0), BlobsOf(ps, nonce, 0)) == Some(Plain(ps, last))
  {
    assert !Contains([], nonce);
    ReinjectFrom([], ps, last, nonce, 0);
    assert [] + Woven(ps, last, nonce, 0) == Woven(ps, last, nonce, 0) && [] + Plain(ps, last) == Plain(ps, last);
  }

  // ---------------------------------------------------------------------- extraction

  predicate IsJsonWhite(b: Byte) { b == 32 || b == 9 || b == 10 || b == 13 }

  /** scan_string_end: where the closing quote is. */
  function StringEnd(raw: Bytes, i: nat): (e: Option<nat>)
    requires i <= |raw|
    ensures e.Some? ==> i <= e.value < |raw| && raw[e.value] == QUOTE
    decreases |raw| - i
  {
    if i == |raw| then None
    else if raw[i] == QUOTE then Some(i)
    else if raw[i] == BACKSLASH then (if i + 1 >= |raw| then None else StringEnd(raw, i + 2))
    else StringEnd(raw, i + 1)
  }

  /** The first byte behind i that is no white space is a colon. */
  predicate IsKey(raw: Bytes, i: nat)
    requires i <= |raw|
    decreases |raw| - i
  {
    if i == |raw| then false
    else if IsJsonWhite(raw[i]) then IsKey(raw, i + 1)
    else raw[i] == COLON
  }

  type Skippable = Bytes -> bool

  /** The values to take out, from i on; the current gap began at g. None: a string has no end. */
  function PartsFrom(raw: Bytes, g: nat, i: nat, skip: Skippable): Option<(seq<Part>, Bytes)>
    requires g <= i <= |raw|
    decreases |raw| - i
  {
    if i == |raw| then Some(([], raw[g..]))
    else if raw[i] != QUOTE then PartsFrom(raw, g, i + 1, skip)
    else
      var e := StringEnd(raw, i + 1);
      if e.None? then None
      else if !IsKey(raw, e.value + 1) && skip(raw[i + 1..e.value]) then
        var rest := PartsFrom(raw, e.value, e.value + 1, skip);
        if rest.None? then None
        else Some(([Part(raw[g..i + 1], raw[i + 1..e.value])] + rest.value.0, rest.value.1))
      else PartsFrom(raw, g, e.value + 1, skip)
  }

  /** The woven text, whatever is woven in, begins with a quote. */
  predicate Opens(ps: seq<Part>, last: Bytes) { Starts(if ps == [] then last else ps[0].gap) }

  /** The parts are the text, its values delimited by quotes. */
  lemma {:induction false} PartsAre(raw: Bytes, g: nat, i: nat, skip: Skippable, nonce: Bytes)
    requires g <= i <= |raw| && PartsFrom(raw, g, i, skip).Some? && !Contains(raw, nonce)
    ensures var (ps, last) := PartsFrom(raw, g, i, skip).value;
            && Plain(ps, last) == raw[g..]
            && Delimited(ps, last, nonce)
            && (g < i && raw[g] == QUOTE ==> Opens(ps, last))
    decreases |raw| - i
  {
    if i == |raw| {
      AbsentSlice(raw, nonce, g, |raw|);
      assert raw[g..|raw|] == raw[g..];
    } else if raw[i] != QUOTE {
      PartsAre(raw, g, i + 1, skip, nonce);
    } else {
      var e := StringEnd(raw, i + 1).value;
      if !IsKey(raw, e + 1) && skip(raw[i + 1..e]) {
        PartsAre(raw, e, e + 1, skip, nonce);
        var (rest, last) := PartsFrom(raw, e, e + 1, skip).value;
        ValuePart(raw, g, i, e, nonce);
        PartsCons(Part(raw[g..i + 1], raw[i + 1..e]), rest, last, nonce);
      } else {
        PartsAre(raw, g, e + 1, skip, nonce);
      }
    }
  }

  lemma {:induction false} ValuePart(raw: Bytes, g: nat, i: nat, e: nat, nonce: Bytes)
    requires g <= i < e <= |raw| && raw[i] == QUOTE && !Contains(raw, nonce)
    ensures var gap, content := raw[g..i + 1], raw[i + 1..e];
            && Ends(gap) && !Contains(gap, nonce) && !Contains(content, nonce) && gap[0] == raw[g]
            && gap + (content + raw[e..]) == raw[g..]
  {
    AbsentSlice(raw, nonce, g, i + 1);
    AbsentSlice(raw, nonce, i + 1, e);
  }

  /** Only values that may be skipped are taken out. */
  lemma {:induction false} PartsSkippable(raw: Bytes, g: nat, i: nat, skip: Skippable)
    requires g <= i <= |raw| && PartsFrom(raw, g, i, skip).Some?
    ensures forall k :: 0 <= k < |PartsFrom(raw, g, i, skip).value.0| ==> skip(PartsFrom(raw, g, i, skip).value.0[k].content)
    decreases |raw| - i
  {
    if i < |raw| {
      if raw[i] != QUOTE { PartsSkippable(raw, g, i + 1, skip); }
      else {
        var e := StringEnd(raw, i + 1).value;
        if !IsKey(raw, e + 1) && skip(raw[i + 1..e]) { PartsSkippable(raw, e, e + 1, skip); }
        else { PartsSkippable(raw, g, e + 1, skip); }
      }
    }
  }

  lemma {:induction false} PartsCons(p: Part, rest: seq<Part>, last: Bytes, nonce: Bytes)
    requires Delimited(rest, last, nonce) && Ends(p.gap) && !Contains(p.gap, nonce) && !Contains(p.content, nonce)
    requires Opens(rest, last)
    ensures Delimited([p] + rest, last, nonce) && Plain([p] + rest, last) == p.gap + (p.content + Plain(rest, last))
  {
    var ps := [p] + rest;
    assert ps[1..] == rest;
    assert forall i :: 1 <= i < |ps| ==> ps[i] == rest[i - 1];
  }

  datatype Extraction = Extraction(body: Bytes, blobs: seq<Blob>, skipped: nat)

  function Skipped(ps: seq<Part>): nat { if ps == [] then 0 else |ps[0].content| + Skipped(ps[1..]) }

  /** gen_nonce: the first of four draws that is not in the body. */
  function FirstNew(raw: Bytes, draws: seq<Bytes>): (n: Option<Bytes>)
    ensures n.Some? ==> n.value in draws && !Contains(raw, n.value)
  {
    if draws == [] then None
    else if !Contains(raw, draws[0]) then Some(draws[0])
    else FirstNew(raw, draws[1..])
  }

  /** extract on a body that is valid UTF-8, with blobs not switched off. */
  function Extracted(raw: Bytes, skip: Skippable, draws: seq<Bytes>): Option<Extraction> {
    var nonce := FirstNew(raw, draws);
    if raw == [] || nonce.None? then None
    else
      var parts := PartsFrom(raw, 0, 0, skip);
      if parts.None? || parts.value.0 == [] then None
      else
        var (ps, last) := parts.value;
        Some(Extraction(Woven(ps, last, nonce.value, 0), BlobsOf(ps, nonce.value, 0), Skipped(ps)))
  }

  predicate Hex(b: Byte) { 48 <= b < 58 || 97 <= b < 103 }

  /** The 32 hex digits of two 64-bit numbers. */
  predicate HexNonce(nonce: Bytes) { |nonce| == 32 && forall k :: 0 <= k < 32 ==> Hex(nonce[k]) }

  predicate HexDraws(draws: seq<Bytes>) { forall i :: 0 <= i < |draws| ==> HexNonce(draws[i]) }

  lemma {:induction false} DrawnNonce(raw: Bytes, draws: seq<Bytes>)
    requires HexDraws(draws) && FirstNew(raw, draws).Some?
    ensures var nonce := FirstNew(raw, draws).value; HexNonce(nonce) && QUOTE !in nonce && nonce != []
  {
    var nonce := FirstNew(raw, draws).value;
    var i :| 0 <= i < |draws| && draws[i] == nonce;
  }

  /**
   Blob round trip: whenever extraction succeeds with at most a million values, putting them
   back gives exactly the original bytes, whatever counts as a blob.
   */
  lemma {:induction false} BlobRoundTrip(raw: Bytes, skip: Skippable, draws: seq<Bytes>)
    requires HexDraws(draws) && Extracted(raw, skip, draws).Some? && |Extracted(raw, skip, draws).value.blobs| <= MAX_BLOBS
    ensures var x := Extracted(raw, skip, draws).value;
            HaveTokens(x.blobs) && Reinject(x.body, x.blobs) == Some(raw)
  {
    var nonce := FirstNew(raw, draws).value;
    DrawnNonce(raw, draws);
    var (ps, last) := PartsFrom(raw, 0, 0, skip).value;
    PartsAre(raw, 0, 0, skip, nonce);
    WovenReinject(ps, last, nonce);
    assert raw[0..] == raw;
  }

  // ------------------------------------------------------------------- what a blob is

  datatype Mode = Off | DataUri | Auto

  datatype BlobPolicy = BlobPolicy(enabled: bool, mode: Mode, minBytes: nat)

  function LowerByte(b: Byte): Byte { if 65 <= b < 91 then b + 32 else b }

  predicate SameFolded(a: Bytes, b: Bytes) { |a| == |b| && forall i :: 0 <= i < |a| ==> LowerByte(a[i]) == b[i] }

  predicate FoldedAt(hay: Bytes, p: nat, needle: Bytes) {
    p + |needle| <= |hay| && SameFolded(hay[p..p + |needle|], needle)
  }

  const DATA_URI_PROBE: nat := 1024

  /** Begins with `data:` and has `;base64,` among its first bytes. */
  predicate IsDataUri(b: Bytes) {
    var hay := if |b| < DATA_URI_PROBE then b else b[..DATA_URI_PROBE];
    && |b| >= 5 && SameFolded(b[..5], Ascii("data:"))
    && exists p :: 0 <= p <= |hay| && FoldedAt(hay, p, Ascii(";base64,"))
  }

  predicate IsUpperByte(b: Byte) { 65 <= b < 91 }
  predicate IsLowerByte(b: Byte) { 97 <= b < 123 }
  predicate IsDigitByte(b: Byte) { 48 <= b < 58 }
  predicate IsPad(b: Byte) { b == 61 }
  predicate IsSymbol(b: Byte) { b == 43 || b == 47 || b == 45 || b == 95 || IsPad(b) }
  predicate IsHexByte(b: Byte) { IsDigitByte(b) || 97 <= b < 103 }
  predicate IsBase64Byte(b: Byte) { IsUpperByte(b) || IsLowerByte(b) || IsDigitByte(b) || IsSymbol(b) }

  predicate Has(b: Bytes, p: Byte -> bool) { exists i :: 0 <= i < |b| && p(b[i]) }
  predicate AllBytes(b: Bytes, p: Byte -> bool) { forall i :: 0 <= i < |b| ==> p(b[i]) }

  /** At most two padding bytes, and nothing behind them. */
  predicate PadsAtEnd(b: Bytes) {
    forall i :: 0 <= i < |b| && IsPad(b[i]) ==> i >= |b| - 2 && forall j :: i <= j < |b| ==> IsPad(b[j])
  }

  /** Long, of base64 characters with padding at the end, a symbol among them, of three kinds, and no hex string. */
  predicate IsLargeBase64(b: Bytes, min: nat) {
    && |b| >= min && AllBytes(b, IsBase64Byte) && PadsAtEnd(b)
    && !AllBytes(b, IsHexByte) && Has(b, IsSymbol)
    && (if Has(b, IsUpperByte) then Has(b, IsLowerByte) || Has(b, IsDigitByte)
        else Has(b, IsLowerByte) && Has(b, IsDigitByte))
  }

  predicate Classified(content: Bytes, p: BlobPolicy) {
    && p.enabled && content != [] && BACKSLASH !in content
    && ((p.mode != Off && IsDataUri(content)) || (p.mode == Auto && IsLargeBase64(content, p.minBytes)))
  }

  function SkippableBy(p: BlobPolicy): Skippable { content => Classified(content, p) }

  /** What looks_like_large_base64 knows after i bytes. */
  ghost predicate Seen(b: Bytes, i: nat, upper: bool, lower: bool, digit: bool, symbol: bool, hex: bool, pads: nat)
    requires i <= |b|
  {
    && (upper <==> Has(b[..i], IsUpperByte)) && (lower <==> Has(b[..i], IsLowerByte)) && (digit <==> Has(b[..i], IsDigitByte))
    && (symbol <==> Has(b[..i], IsSymbol)) && (hex <==> AllBytes(b[..i], IsHexByte))
    && AllBytes(b[..i], IsBase64Byte)
    && pads <= 2 && pads <= i && forall k :: 0 <= k < i ==> (IsPad(b[k]) <==> k >= i - pads)
  }

  lemma {:induction false} HasMore(b: Bytes, i: nat, p: Byte -> bool)
    requires i < |b|
    ensures Has(b[..i + 1], p) <==> Has(b[..i], p) || p(b[i])
    ensures AllBytes(b[..i + 1], p) <==> AllBytes(b[..i], p) && p(b[i])
  {
    var x, y := b[..i], b[..i + 1];
    assert y == x + [b[i]];
    if k :| 0 <= k < |x| && p(x[k]) { assert p(y[k]); }
    if k :| 0 <= k < |y| && p(y[k]) { if k < i { assert p(x[k]); } }
    if p(b[i]) { assert p(y[i]); }
    if AllBytes(y, p) { assert p(y[i]); forall k | 0 <= k < i ensures p(x[k]) { assert p(y[k]); } }
  }

  /** looks_like_large_base64 */
  method LooksLikeLargeBase64(b: Bytes, min: nat) returns (yes: bool)
    ensures yes <==> IsLargeBase64(b, min)
  {
    if |b| < min { return false; }
    var upper, lower, digit, symbol, hex, pads := false, false, false, false, true, 0;
    for i := 0 to |b|
      invariant Seen(b, i, upper, lower, digit, symbol, hex, pads)
    {
      var c := b[i];
      if pads > 0 && !IsPad(c) {
        assert IsPad(b[i - 1]) && !IsPad(b[i]);
        return false;
      }
      SeenMore(b, i);
      if IsUpperByte(c) { upper, hex := true, false; }
      else if IsLowerByte(c) { lower := true; if !IsHexByte(c) { hex := false; } }
      else if IsDigitByte(c) { digit := true; }
      else if IsSymbol(c) {
        symbol, hex := true, false;
        if IsPad(c) {
          pads := pads + 1;
          if pads > 2 {
            assert IsPad(b[i - 2]);
            return false;
          }
        }
      } else {
        return false;
      }
    }
    assert b[..|b|] == b;
    if hex { return false; }
    var kinds := (if upper then 1 else 0) + (if lower then 1 else 0) + (if digit then 1 else 0) + (if symbol then 1 else 0);
    yes := kinds >= 3 && symbol;
  }

  lemma {:induction false} SeenMore(b: Bytes, i: nat)
    requires i < |b|
    ensures Has(b[..i + 1], IsUpperByte) <==> Has(b[..i], IsUpperByte) || IsUpperByte(b[i])
    ensures Has(b[..i + 1], IsLowerByte) <==> Has(b[..i], IsLowerByte) || IsLowerByte(b[i])
    ensures Has(b[..i + 1], IsDigitByte) <==> Has(b[..i], IsDigitByte) || IsDigitByte(b[i])
    ensures Has(b[..i + 1], IsSymbol) <==> Has(b[..i], IsSymbol) || IsSymbol(b[i])
    ensures AllBytes(b[..i + 1], IsHexByte) <==> AllBytes(b[..i], IsHexByte) && IsHexByte(b[i])
    ensures AllBytes(b[..i + 1], IsBase64Byte) <==> AllBytes(b[..i], IsBase64Byte) && IsBase64Byte(b[i])
  {
    HasMore(b, i, IsUpperByte);
    HasMore(b, i, IsLowerByte);
    HasMore(b, i, IsDigitByte);
    HasMore(b, i, IsSymbol);
    HasMore(b, i, IsHexByte);
    HasMore(b, i, IsBase64Byte);
  }

  method ClassifyBytes(content: Bytes, p: BlobPolicy) returns (yes: bool)
    ensures yes <==> Classified(content, p)
  {
    if !p.enabled || content == [] || BACKSLASH in content { return false; }
    if p.mode != Off && IsDataUri(content) { return true; }
    if p.mode == Auto { yes := LooksLikeLargeBase64(content, p.minBytes); } else { yes := false; }
  }

  // ----------------------------------------------------------------- the extract loop

  method ScanStringEnd(raw: Bytes, start: nat) returns (end: Option<nat>)
    requires start <= |raw|
    ensures end == StringEnd(raw, start)
  {
    var i := start;
    while i < |raw|
      invariant start <= i <= |raw| && StringEnd(raw, start) == StringEnd(raw, i)
    {
      if raw[i] == QUOTE { return Some(i); }
      if raw[i] == BACKSLASH {
        if i + 1 >= |raw| { return None; }
        i := i + 2;
      } else {
        i := i + 1;
      }
    }
    end := None;
  }

  lemma {:induction false} JoinTwice(a: Bytes, b: Bytes, c: Bytes, d: Bytes)
    ensures a + (b + (c + d)) == (a + (b + c)) + d && a + b + (c + d) == (a + b + c) + d
  {
  }

  lemma {:induction false} WovenConcat(a: seq<Part>, b: seq<Part>, last: Bytes, nonce: Bytes, n: nat)
    ensures Woven(a + b, last, nonce, n) == Woven(a, [], nonce, n) + Woven(b, last, nonce, n + |a|)
    decreases |a|
  {
    if a == [] {
      assert a + b == b;
    } else {
      assert (a + b)[0] == a[0] && (a + b)[1..] == a[1..] + b;
      WovenConcat(a[1..], b, last, nonce, n + 1);
      assert Woven(a + b, last, nonce, n) == a[0].gap + (BlobToken(nonce, n) + Woven(a[1..] + b, last, nonce, n + 1));
      JoinTwice(a[0].gap, BlobToken(nonce, n), Woven(a[1..], [], nonce, n + 1), Woven(b, last, nonce, n + |a|));
    }
  }

  lemma {:induction false} BlobsConcat(a: seq<Part>, b: seq<Part>, nonce: Bytes, n: nat)
    ensures BlobsOf(a + b, nonce, n) == BlobsOf(a, nonce, n) + BlobsOf(b, nonce, n + |a|)
    ensures Skipped(a + b) == Skipped(a) + Skipped(b)
    decreases |a|
  {
    if a == [] {
      assert a + b == b;
    } else {
      assert (a + b)[0] == a[0] && (a + b)[1..] == a[1..] + b;
      BlobsConcat(a[1..], b, nonce, n + 1);
      Assoc([Blob(BlobToken(nonce, n), a[0].content)], BlobsOf(a[1..], nonce, n + 1), BlobsOf(b, nonce, n + |a|));
    }
  }

  /** Parts found so far and what is found from here. */
  function Prepend(done: seq<Part>, o: Option<(seq<Part>, Bytes)>): Option<(seq<Part>, Bytes)> {
    if o.None? then None else Some((done + o.value.0, o.value.1))
  }

  /** The loop of extract, i bytes in: the gap that began at g is still open. */
  ghost predicate Midway(raw: Bytes, skip: Skippable, nonce: Bytes, done: seq<Part>, g: nat, i: nat, out: Bytes, blobs: seq<Blob>, skipped: nat) {
    && g <= i <= |raw|
    && PartsFrom(raw, 0, 0, skip) == Prepend(done, PartsFrom(raw, g, i, skip))
    && out == Woven(done, [], nonce, 0) + raw[g..i] && blobs == BlobsOf(done, nonce, 0) && skipped == Skipped(done)
  }

  lemma {:induction false} MidwayStart(raw: Bytes, skip: Skippable, nonce: Bytes)
    ensures Midway(raw, skip, nonce, [], 0, 0, [], [], 0)
  {
    var o := PartsFrom(raw, 0, 0, skip);
    if o.Some? { assert [] + o.value.0 == o.value.0; }
  }

  /** Bytes that are copied. */
  lemma {:induction false} MidwayCopy(raw: Bytes, skip: Skippable, nonce: Bytes, done: seq<Part>, g: nat, i: nat, out: Bytes,
                                      blobs: seq<Blob>, skipped: nat, j: nat)
    requires Midway(raw, skip, nonce, done, g, i, out, blobs, skipped) && i <= j <= |raw|
    requires PartsFrom(raw, g, i, skip) == PartsFrom(raw, g, j, skip)
    ensures Midway(raw, skip, nonce, done, g, j, out + raw[i..j], blobs, skipped)
  {
    assert raw[g..j] == raw[g..i] + raw[i..j];
    Assoc(Woven(done, [], nonce, 0), raw[g..i], raw[i..j]);
  }

  /** A value that is taken out. */
  lemma {:induction false} MidwayTake(raw: Bytes, skip: Skippable, nonce: Bytes, done: seq<Part>, g: nat, i: nat, out: Bytes,
                                      blobs: seq<Blob>, skipped: nat, e: nat)
    requires Midway(raw, skip, nonce, done, g, i, out, blobs, skipped) && i < e < |raw| && raw[i] == QUOTE
    requires StringEnd(raw, i + 1) == Some(e) && !IsKey(raw, e + 1) && skip(raw[i + 1..e])
    ensures var token, content := BlobToken(nonce, |blobs|), raw[i + 1..e];
            Midway(raw, skip, nonce, done + [Part(raw[g..i + 1], content)], e, e + 1, out + [QUOTE] + token + [QUOTE],
                   blobs + [Blob(token, content)], skipped + |content|)
  {
    var p, n := Part(raw[g..i + 1], raw[i + 1..e]), |done|;
    TakenOut(p, raw[g..i], nonce, done);
    BlobsConcat(done, [p], nonce, 0);
    OnePart(p, nonce, n);
    assert raw[g..i + 1] == raw[g..i] + [QUOTE] && raw[e..e + 1] == [QUOTE];
    var rest := PartsFrom(raw, e, e + 1, skip);
    PrependOne(done, p, rest);
  }

  lemma {:induction false} PrependOne(done: seq<Part>, p: Part, rest: Option<(seq<Part>, Bytes)>)
    ensures Prepend(done, if rest.None? then None else Some(([p] + rest.value.0, rest.value.1))) == Prepend(done + [p], rest)
  {
    if rest.Some? { Assoc(done, [p], rest.value.0); }
  }

  lemma {:induction false} TakenOut(p: Part, a: Bytes, nonce: Bytes, done: seq<Part>)
    requires p.gap == a + [QUOTE]
    ensures Woven(done + [p], [], nonce, 0) + [QUOTE]
         == Woven(done, [], nonce, 0) + a + [QUOTE] + BlobToken(nonce, |done|) + [QUOTE]
  {
    OnePart(p, nonce, |done|);
    WovenConcat(done, [p], [], nonce, 0);
    QuotedToken(Woven(done, [], nonce, 0), a, BlobToken(nonce, |done|));
  }

  lemma {:induction false} OnePart(p: Part, nonce: Bytes, n: nat)
    ensures Woven([p], [], nonce, n) == p.gap + BlobToken(nonce, n)
    ensures BlobsOf([p], nonce, n) == [Blob(BlobToken(nonce, n), p.content)] && Skipped([p]) == |p.content|
  {
    var ps, token := [p], BlobToken(nonce, n);
    assert ps[1..] == [];
    assert Woven(ps, [], nonce, n) == p.gap + (token + []);
    assert token + [] == token;
    assert BlobsOf(ps, nonce, n) == [Blob(token, p.content)] + [];
  }

  lemma {:induction false} QuotedToken(w: Bytes, a: Bytes, token: Bytes)
    ensures w + (a + [QUOTE] + token) + [QUOTE] == w + a + [QUOTE] + token + [QUOTE]
  {
  }

  method Extract(raw: Bytes, p: BlobPolicy, validUtf8: Bytes -> bool, draws: seq<Bytes>) returns (x: Option<Extraction>)
    ensures x == if !p.enabled || p.mode == Off || raw == [] || !validUtf8(raw) then None
                 else Extracted(raw, SkippableBy(p), draws)
  {
    if !p.enabled || p.mode == Off || raw == [] || !validUtf8(raw) { return None; }
    var drawn := FirstNew(raw, draws);
    if drawn.None? { return None; }
    var nonce := drawn.value;
    var out: Bytes, blobs: seq<Blob>, skipped: nat := [], [], 0;
    ghost var done: seq<Part>, g := [], 0;
    var i := 0;
    MidwayStart(raw, SkippableBy(p), nonce);
    while i < |raw|
      invariant Midway(raw, SkippableBy(p), nonce, done, g, i, out, blobs, skipped)
      decreases |raw| - i
    {
      if raw[i] != QUOTE {
        MidwayCopy(raw, SkippableBy(p), nonce, done, g, i, out, blobs, skipped, i + 1);
        assert raw[i..i + 1] == [raw[i]];
        out := out + [raw[i]];
        i := i + 1;
      } else {
        var end := ScanStringEnd(raw, i + 1);
        if end.None? { return None; }
        done, g, out, blobs, skipped := OneString(raw, p, nonce, done, g, i, end.value, out, blobs, skipped);
        i := end.value + 1;
      }
    }
    MidwayEnd(raw, SkippableBy(p), nonce, done, g, out, blobs, skipped);
    if blobs == [] { return None; }
    x := Some(Extraction(out, blobs, skipped));
  }

  /** A string literal from i to its closing quote at e: taken out or copied. */
  method OneString(raw: Bytes, p: BlobPolicy, nonce: Bytes, ghost done: seq<Part>, ghost g: nat, i: nat, e: nat,
                   out: Bytes, blobs: seq<Blob>, skipped: nat)
      returns (ghost done': seq<Part>, ghost g': nat, out': Bytes, blobs': seq<Blob>, skipped': nat)
    requires Midway(raw, SkippableBy(p), nonce, done, g, i, out, blobs, skipped)
    requires i < e < |raw| && raw[i] == QUOTE && StringEnd(raw, i + 1) == Some(e)
    ensures Midway(raw, SkippableBy(p), nonce, done', g', e + 1, out', blobs', skipped')
  {
    var content := raw[i + 1..e];
    var yes := ClassifyBytes(content, p);
    if !IsKey(raw, e + 1) && yes {
      MidwayTake(raw, SkippableBy(p), nonce, done, g, i, out, blobs, skipped, e);
      var token := BlobToken(nonce, |blobs|);
      done', g' := done + [Part(raw[g..i + 1], content)], e;
      out' := out + [QUOTE] + token + [QUOTE];
      blobs', skipped' := blobs + [Blob(token, content)], skipped + |content|;
    } else {
      MidwayCopy(raw, SkippableBy(p), nonce, done, g, i, out, blobs, skipped, e + 1);
      done', g', out', blobs', skipped' := done, g, out + raw[i..e + 1], blobs, skipped;
    }
  }

  lemma {:induction false} MidwayEnd(raw: Bytes, skip: Skippable, nonce: Bytes, done: seq<Part>, g: nat, out: Bytes,
                                     blobs: seq<Blob>, skipped: nat)
    requires Midway(raw, skip, nonce, done, g, |raw|, out, blobs, skipped)
    ensures PartsFrom(raw, 0, 0, skip) == Some((done, raw[g..])) && out == Woven(done, raw[g..], nonce, 0)
    ensures blobs == BlobsOf(done, nonce, 0) && skipped == Skipped(done) && (blobs == [] <==> done == [])
  {
    assert done + [] == done && raw[g..|raw|] == raw[g..];
    WovenConcat(done, [], raw[g..], nonce, 0);
    BlobsConcat(done, [], nonce, 0);
  }
}
