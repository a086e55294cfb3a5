/**
 Beyond a million blobs the tokens of src/mask/blob.rs have no fixed width any more, and one
 is the beginning of another. Putting the values back then always fails, and is reported as
 a failure: no damaged body is ever given for the original.
 */
module BlobLimits {
  import opened Wrappers
  import opened Seqs
  import opened Utf8Stream
  import opened Blobs

  // ----------------------------------------------------------------- wide numbers

  /** The first six digits of a padded number, as a number, and the others. */
  function Lead(n: nat): (k: nat)
    ensures k < MAX_BLOBS && k <= n
  {
    if n < MAX_BLOBS then n else Lead(n / 10)
  }

  function Trail(n: nat): Bytes { if n < MAX_BLOBS then [] else Trail(n / 10) + [Digit(n)] }

  lemma {:induction false} PaddedSplit(n: nat)
    ensures Padded(n) == Padded(Lead(n)) + Trail(n) && IsDigits(Trail(n))
  {
    if n >= MAX_BLOBS {
      PaddedSplit(n / 10);
      Assoc(Padded(Lead(n)), Trail(n / 10), [Digit(n)]);
    } else {
      assert Padded(n) + [] == Padded(n);
    }
  }

  /** A token begins with the token of its leading digits. */
  lemma {:induction false} TokenSplit(nonce: Bytes, n: nat)
    ensures BlobToken(nonce, n) == BlobToken(nonce, Lead(n)) + Trail(n)
  {
    PaddedSplit(n);
    Assoc(Dash(), Padded(Lead(n)), Trail(n));
    Assoc(Head() + nonce, Dash() + Padded(Lead(n)), Trail(n));
  }

  /** The first token that is wider, and the one it begins with. */
  lemma {:induction false} WideTokenPrefix(nonce: Bytes)
    ensures BlobToken(nonce, MAX_BLOBS) == BlobToken(nonce, 100000) + [Digit(0)] && Contains(BlobToken(nonce, MAX_BLOBS), BlobToken(nonce, 100000))
  {
    var wide, t := BlobToken(nonce, MAX_BLOBS), BlobToken(nonce, 100000);
    TokenSplit(nonce, MAX_BLOBS);
    assert Trail(100000) == [] && Trail(MAX_BLOBS) == [Digit(MAX_BLOBS)];
    assert wide[0..0 + |t|] == t;
    assert Occurs(wide, t, 0);
  }

  // ------------------------------------------------------------ where tokens occur

  const K: Byte := 107
  const DASH: Byte := 45

  lemma {:induction false} HeadIs()
    ensures |Head()| == 4 && Head()[0] == K && Dash() == [DASH] && K !in Head()[1..]
  {
    assert Head()[1] == 109 && Head()[2] == 98 && Head()[3] == 45;
  }

  /** The letter k is the first of a token and nowhere else in it. */
  lemma {:induction false} OneK(nonce: Bytes, n: nat)
    requires HexNonce(nonce)
    ensures var t := BlobToken(nonce, n); t != [] && t[0] == K && K !in t[1..]
  {
    var t := BlobToken(nonce, n);
    HeadIs();
    PaddedDigits(n);
    assert t == Head() + (nonce + (Dash() + Padded(n)));
    assert t[1..] == Head()[1..] + (nonce + (Dash() + Padded(n)));
  }

  /** Where a token and digits contain a token, they begin with it. */
  lemma {:induction false} OnlyAtStart(nonce: Bytes, m: nat, n: nat, more: Bytes, p: nat)
    requires HexNonce(nonce) && IsDigits(more) && Occurs(BlobToken(nonce, n) + more, BlobToken(nonce, m), p)
    ensures p == 0
  {
    var t, x := BlobToken(nonce, n) + more, BlobToken(nonce, m);
    OneK(nonce, m);
    OneK(nonce, n);
    assert t[p] == t[p..p + |x|][0] == K;
    assert t[1..] == BlobToken(nonce, n)[1..] + more;
    forall q | 1 <= q < |t| ensures t[q] != K { assert t[q] == t[1..][q - 1]; }
  }

  lemma {:induction false} SameLead(nonce: Bytes, m: nat, n: nat, more: Bytes, p: nat)
    requires HexNonce(nonce) && IsDigits(more) && Occurs(BlobToken(nonce, n) + more, BlobToken(nonce, m), p)
    requires |BlobToken(nonce, m)| == |BlobToken(nonce, n)|
    ensures BlobToken(nonce, m) == BlobToken(nonce, n)
  {
    var t, x := BlobToken(nonce, n) + more, BlobToken(nonce, m);
    OnlyAtStart(nonce, m, n, more, p);
    assert t[0..0 + |x|] == BlobToken(nonce, n);
  }

  /** Tokens of six digits are told apart even when digits follow. */
  lemma {:induction false} OtherLead(nonce: Bytes, m: nat, n: nat, more: Bytes)
    requires HexNonce(nonce) && IsDigits(more) && m < MAX_BLOBS && n < MAX_BLOBS && m != n
    ensures !Contains(BlobToken(nonce, n) + more, BlobToken(nonce, m))
  {
    var t, x := BlobToken(nonce, n) + more, BlobToken(nonce, m);
    TokensDiffer(nonce, m, n);
    forall p | 0 <= p <= |t| ensures !Occurs(t, x, p) {
      if Occurs(t, x, p) { SameLead(nonce, m, n, more, p); }
    }
  }

  /** A text without the nonce, and digits behind it: no token is in it. */
  lemma {:induction false} DigitsBehind(content: Bytes, more: Bytes, nonce: Bytes, m: nat)
    requires !Contains(content, nonce) && IsDigits(more)
    ensures !Contains(content + more, BlobToken(nonce, m))
  {
    var t, x := content + more, BlobToken(nonce, m);
    forall p | 0 <= p <= |t| ensures !Occurs(t, x, p) {
      if Occurs(t, x, p) { NonceReaches(content, more, nonce, m, p); }
    }
  }

  lemma {:induction false} NonceReaches(content: Bytes, more: Bytes, nonce: Bytes, m: nat, p: nat)
    requires !Contains(content, nonce) && Occurs(content + more, BlobToken(nonce, m), p)
    ensures !IsDigits(more)
  {
    var t, x, d := content + more, BlobToken(nonce, m), 4 + |nonce|;
    HeadIs();
    assert x == Head() + nonce + ([DASH] + Padded(m));
    assert x[d] == DASH && x[4..d] == nonce;
    assert t[p + d] == t[p..p + |x|][d] == DASH;
    if p + d < |content| {
      SliceSlice(t, p, p + |x|, 4, d);
      assert content[p + 4..p + d] == t[p + 4..p + d];
      assert Occurs(content, nonce, p + 4);
    } else {
      assert more[p + d - |content|] == DASH;
    }
  }

  // ------------------------------------------------------- the text while values go in

  /** What stands at place i when the first j tokens have been replaced. */
  function Body(ps: seq<Part>, nonce: Bytes, i: nat, j: nat): Bytes
    requires i < |ps|
  {
    if Lead(i) < j then ps[Lead(i)].content + Trail(i) else BlobToken(nonce, i)
  }

  function WovenAt(ps: seq<Part>, last: Bytes, nonce: Bytes, i: nat, j: nat): Bytes
    requires i <= |ps|
    decreases |ps| - i
  {
    if i == |ps| then last else ps[i].gap + (Body(ps, nonce, i, j) + WovenAt(ps, last, nonce, i + 1, j))
  }

  lemma {:induction false} WovenStart(ps: seq<Part>, last: Bytes, nonce: Bytes, i: nat)
    requires i <= |ps|
    ensures WovenAt(ps, last, nonce, i, 0) == Woven(ps[i..], last, nonce, i)
    decreases |ps| - i
  {
    if i < |ps| {
      WovenStart(ps, last, nonce, i + 1);
      assert ps[i..][0] == ps[i] && ps[i..][1..] == ps[i + 1..];
    }
  }

  lemma {:induction false} RestStarts(ps: seq<Part>, last: Bytes, nonce: Bytes, i: nat, j: nat)
    requires Delimited(ps, last, nonce) && 0 < i <= |ps|
    ensures Starts(WovenAt(ps, last, nonce, i, j))
  {
  }

  /** Replacing goes on separately behind a quote. */
  lemma {:induction false} ReplaceBefore(a: Bytes, b: Bytes, pat: Bytes, with: Bytes)
    requires pat != [] && QUOTE !in pat && Starts(b)
    ensures Replace(a + b, pat, with) == Replace(a, pat, with) + Replace(b, pat, with)
    decreases |a|
  {
    var t := a + b;
    if a == [] {
      assert t == b;
    } else if Occurs(t, pat, 0) {
      OccursSplit(a, b, pat, 0);
      assert t[|pat|..] == a[|pat|..] + b;
      ReplaceBefore(a[|pat|..], b, pat, with);
      Assoc(with, Replace(a[|pat|..], pat, with), Replace(b, pat, with));
    } else {
      NotHere(a, b, pat);
      assert t[1..] == a[1..] + b;
      ReplaceBefore(a[1..], b, pat, with);
      Assoc([a[0]], Replace(a[1..], pat, with), Replace(b, pat, with));
    }
  }

  lemma {:induction false} NotHere(a: Bytes, b: Bytes, pat: Bytes)
    requires !Occurs(a + b, pat, 0)
    ensures !Occurs(a, pat, 0)
  {
    if |pat| <= |a| { assert (a + b)[0..0 + |pat|] == a[0..0 + |pat|]; }
  }

  /** What replacing the j-th token does at place i. */
  lemma {:induction false} BodyStep(ps: seq<Part>, last: Bytes, nonce: Bytes, i: nat, j: nat)
    requires Delimited(ps, last, nonce) && HexNonce(nonce) && i < |ps| && j < |ps| && j < MAX_BLOBS
    ensures BlobToken(nonce, j) != []
    ensures Replace(Body(ps, nonce, i, j), BlobToken(nonce, j), ps[j].content) == Body(ps, nonce, i, j + 1)
  {
    var pat, with := BlobToken(nonce, j), ps[j].content;
    OneK(nonce, j);
    PaddedSplit(i);
    TokenSplit(nonce, i);
    if Lead(i) < j {
      DigitsBehind(ps[Lead(i)].content, Trail(i), nonce, j);
      ReplaceAbsent(Body(ps, nonce, i, j), pat, with);
    } else if Lead(i) == j {
      TokenAndDigits(nonce, j, Trail(i), with);
    } else {
      OtherLead(nonce, j, Lead(i), Trail(i));
      ReplaceAbsent(Body(ps, nonce, i, j), pat, with);
    }
  }

  lemma {:induction false} TokenAndDigits(nonce: Bytes, j: nat, more: Bytes, with: Bytes)
    requires HexNonce(nonce) && IsDigits(more) && BlobToken(nonce, j) != []
    ensures Replace(BlobToken(nonce, j) + more, BlobToken(nonce, j), with) == with + more
  {
    var pat := BlobToken(nonce, j);
    var t := pat + more;
    assert Occurs(t, pat, 0) by { assert t[0..0 + |pat|] == pat; }
    Seam(pat, more);
    assert !Contains([], nonce) by { forall p | 0 <= p <= 0 ensures !Occurs([], nonce, p) {} }
    DigitsBehind([], more, nonce, j);
    assert [] + more == more;
    ReplaceAbsent(more, pat, with);
  }

  /** Replacing one token everywhere. */
  lemma {:induction false} WovenStep(ps: seq<Part>, last: Bytes, nonce: Bytes, i: nat, j: nat)
    requires Delimited(ps, last, nonce) && HexNonce(nonce) && i <= |ps| && j < |ps| && j < MAX_BLOBS
    ensures BlobToken(nonce, j) != []
    ensures Replace(WovenAt(ps, last, nonce, i, j), BlobToken(nonce, j), ps[j].content) == WovenAt(ps, last, nonce, i, j + 1)
    decreases |ps| - i
  {
    var pat, with := BlobToken(nonce, j), ps[j].content;
    NonceQuoteless(nonce);
    TokenQuoteless(nonce, j);
    if i == |ps| {
      TokenAbsent(last, nonce, j);
      ReplaceAbsent(last, pat, with);
    } else {
      var body, rest := Body(ps, nonce, i, j), WovenAt(ps, last, nonce, i + 1, j);
      RestStarts(ps, last, nonce, i + 1, j);
      TokenAbsent(ps[i].gap, nonce, j);
      ReplaceBehind(ps[i].gap, body + rest, pat, with);
      ReplaceBefore(body, rest, pat, with);
      BodyStep(ps, last, nonce, i, j);
      WovenStep(ps, last, nonce, i + 1, j);
    }
  }

  lemma {:induction false} NonceQuoteless(nonce: Bytes)
    requires HexNonce(nonce)
    ensures QUOTE !in nonce && nonce != []
  {
  }

  lemma {:induction false} AbsentThree(gap: Bytes, body: Bytes, rest: Bytes, pat: Bytes)
    requires Ends(gap) && Starts(rest) && pat != [] && QUOTE !in pat
    requires !Contains(gap, pat) && !Contains(body, pat) && !Contains(rest, pat)
    ensures !Contains(gap + (body + rest), pat)
  {
    AbsentConcat(body, rest, pat);
    AbsentConcat(gap, body + rest, pat);
  }

  /** Once all tokens of six digits are replaced, the first wider one is nowhere. */
  lemma {:induction false} WideGone(ps: seq<Part>, last: Bytes, nonce: Bytes, i: nat)
    requires Delimited(ps, last, nonce) && HexNonce(nonce) && i <= |ps|
    ensures !Contains(WovenAt(ps, last, nonce, i, MAX_BLOBS), BlobToken(nonce, MAX_BLOBS))
    decreases |ps| - i
  {
    var pat := BlobToken(nonce, MAX_BLOBS);
    NonceQuoteless(nonce);
    TokenQuoteless(nonce, MAX_BLOBS);
    if i == |ps| {
      TokenAbsent(last, nonce, MAX_BLOBS);
    } else {
      var body, rest := Body(ps, nonce, i, MAX_BLOBS), WovenAt(ps, last, nonce, i + 1, MAX_BLOBS);
      RestStarts(ps, last, nonce, i + 1, MAX_BLOBS);
      TokenAbsent(ps[i].gap, nonce, MAX_BLOBS);
      PaddedSplit(i);
      DigitsBehind(ps[Lead(i)].content, Trail(i), nonce, MAX_BLOBS);
      WideGone(ps, last, nonce, i + 1);
      AbsentThree(ps[i].gap, body, rest, pat);
    }
  }

  // ------------------------------------------------------------------- the verdict

  lemma {:induction false} BlobsAt(ps: seq<Part>, nonce: Bytes, n: nat, k: nat)
    requires k < |ps|
    ensures BlobsOf(ps, nonce, n)[k] == Blob(BlobToken(nonce, n + k), ps[k].content)
  {
    if k > 0 { BlobsAt(ps[1..], nonce, n + 1, k - 1); }
  }

  lemma {:induction false} TokensFrom(bs: seq<Blob>, j: nat)
    requires j <= |bs| && HaveTokens(bs)
    ensures HaveTokens(bs[j..])
  {
    var tail := bs[j..];
    forall i | 0 <= i < |tail| ensures tail[i].token != [] { assert tail[i] == bs[j + i]; }
  }

  lemma {:induction false} BlobsFrom(ps: seq<Part>, nonce: Bytes, j: nat)
    requires j < |ps|
    ensures var bs := BlobsOf(ps, nonce, 0);
            && bs[j..] == [Blob(BlobToken(nonce, j), ps[j].content)] + bs[j + 1..]
            && HaveTokens(bs[j..]) && HaveTokens(bs[j + 1..])
  {
    var bs := BlobsOf(ps, nonce, 0);
    BlobsAt(ps, nonce, 0, j);
    BlobsHaveTokens(ps, nonce, 0);
    assert bs[j..] == [bs[j]] + bs[j + 1..];
    TokensFrom(bs, j);
    TokensFrom(bs, j + 1);
  }

  lemma {:induction false} NotThere(t: Bytes, b: Blob, more: seq<Blob>)
    requires HaveTokens([b] + more) && !Contains(t, b.token)
    ensures Reinject(t, [b] + more) == None
  {
    assert ([b] + more)[0] == b;
  }

  lemma {:induction false} TooManyFrom(ps: seq<Part>, last: Bytes, nonce: Bytes, j: nat)
    requires Delimited(ps, last, nonce) && HexNonce(nonce) && j <= MAX_BLOBS < |ps|
    ensures HaveTokens(BlobsOf(ps, nonce, 0)[j..])
    ensures Reinject(WovenAt(ps, last, nonce, 0, j), BlobsOf(ps, nonce, 0)[j..]) == None
    decreases MAX_BLOBS - j
  {
    var t := WovenAt(ps, last, nonce, 0, j);
    var b, more := Blob(BlobToken(nonce, j), ps[j].content), BlobsOf(ps, nonce, 0)[j + 1..];
    BlobsFrom(ps, nonce, j);
    if j == MAX_BLOBS {
      WideGone(ps, last, nonce, 0);
      NotThere(t, b, more);
    } else if !Contains(t, b.token) {
      NotThere(t, b, more);
    } else {
      WovenStep(ps, last, nonce, 0, j);
      ReinjectStep(t, WovenAt(ps, last, nonce, 0, j + 1), [b] + more, b, more);
      TooManyFrom(ps, last, nonce, j + 1);
    }
  }

  /**
   The blob round trip, exactly: whenever extraction succeeds, putting the values back gives
   the original bytes if and only if there are at most a million of them; with more it fails
   and says so.
   */
  lemma {:induction false} BlobRoundTripIff(raw: Bytes, skip: Skippable, draws: seq<Bytes>)
    requires HexDraws(draws) && Extracted(raw, skip, draws).Some?
    ensures var x := Extracted(raw, skip, draws).value;
            && HaveTokens(x.blobs)
            && Reinject(x.body, x.blobs) == if |x.blobs| <= MAX_BLOBS then Some(raw) else None
  {
    var x, nonce := Extracted(raw, skip, draws).value, FirstNew(raw, draws).value;
    DrawnNonce(raw, draws);
    if |x.blobs| <= MAX_BLOBS {
      BlobRoundTrip(raw, skip, draws);
    } else {
      var (ps, last) := PartsFrom(raw, 0, 0, skip).value;
      PartsAre(raw, 0, 0, skip, nonce);
      BlobsHaveTokens(ps, nonce, 0);
      assert x.blobs[0..] == x.blobs && ps[0..] == ps;
      WovenStart(ps, last, nonce, 0);
      TooManyFrom(ps, last, nonce, 0);
    }
  }
}
