/**
 The check-digit schemes as their standards define them, without the tables of weights and
 codes: what the validators compute with those tables is the same.
 */
module CheckStandards {
  import opened Placeholders
  import opened CheckDigits
  import Calendar

  // --------------------------------------------------------- ISO/IEC 7812-1, annex B

  /** The sum of the decimal digits. */
  function DigitSum(n: nat): nat { if n == 0 then 0 else n % 10 + DigitSum(n / 10) }

  /**
   From the right: the check digit itself counts once, its neighbour double with the digits of
   the double added up, and so on in turn.
   */
  function FromRight(d: string, double: bool): nat
    requires All(IsDigit, d)
  {
    if d == [] then 0
    else
      var v := DigitValue(d[|d| - 1]);
      (if double then DigitSum(2 * v) else v) + FromRight(d[..|d| - 1], !double)
  }

  lemma {:induction false} DoubledIs(v: nat)
    requires v < 10
    ensures Doubled(v) == DigitSum(2 * v)
  {
    assert DigitSum(2 * v) == 2 * v % 10 + DigitSum(2 * v / 10);
    assert 2 * v >= 10 ==> 2 * v / 10 == 1 && DigitSum(1) == 1 + DigitSum(0);
  }

  /** The first n terms of the sum of a longer number. */
  lemma {:induction false} TermsFromRight(d: string, n: nat)
    requires All(IsDigit, d) && n <= |d|
    ensures Sum(LuhnTerms(d)[..n]) == FromRight(d[..n], (|d| - n) % 2 == 1)
  {
    if n > 0 {
      var t := LuhnTerms(d)[..n];
      TermsFromRight(d, n - 1);
      assert t[..n - 1] == LuhnTerms(d)[..n - 1] && t[n - 1] == LuhnTerm(d, n - 1);
      assert d[..n][..n - 1] == d[..n - 1] && d[..n][n - 1] == d[n - 1];
      DoubledIs(DigitValue(d[n - 1]));
    }
  }

  /** The sum of the validator is the standard's, whatever the length of the number. */
  lemma {:induction false} LuhnIsStandard(num: string)
    requires All(IsDigit, num)
    ensures LuhnOk(num) <==> |num| >= 12 && FromRight(num, false) % 10 == 0
  {
    LuhnOfDigits(num);
    TermsFromRight(num, |num|);
    assert num[..|num|] == num && LuhnTerms(num)[..|num|] == LuhnTerms(num);
  }

  // ------------------------------------------------------- ISO/IEC 7064, MOD 11-2 ----

  /** The pure system, recursively: add a digit, double, reduce. */
  function Carry(d: string): (p: int)
    requires All(IsDigit, d)
    ensures 0 <= p < 11
  {
    if d == [] then 0 else (Carry(d[..|d| - 1]) + DigitValue(d[|d| - 1])) * 2 % 11
  }

  function Pow(b: int, n: nat): int { if n == 0 then 1 else b * Pow(b, n - 1) }

  predicate Same(a: int, b: int) { (a - b) % 11 == 0 }

  /** Each weight is twice the next one. */
  lemma {:induction false} IdWeightIs(i: nat) returns (k: int)
    requires i < 17
    ensures IdWeight(i) == Pow(2, 17 - i) - 11 * k
    decreases 17 - i
  {
    if i == 16 {
      assert Pow(2, 1) == 2 * Pow(2, 0);
      k := 0;
    } else {
      k := IdWeightIs(i + 1);
      k := 2 * k + if IdWeight(i) == 2 * IdWeight(i + 1) then 0 else 1;
    }
  }

  lemma {:induction false} CarryStep(sum: int, p: int, v: int, w: int, q: int, k: int)
    requires Same(sum, p * (2 * q)) && w == 2 * q - 11 * k
    ensures Same(sum + v * w, (p + v) * 2 % 11 * q)
  {
    var j, h := (sum - p * (2 * q)) / 11, (p + v) * 2 / 11;
    var x, y := (p + v) * 2, (p + v) * 2 % 11;
    assert x == 11 * h + y && y * q == x * q - 11 * (h * q) by { assert (x - 11 * h) * q == x * q - 11 * h * q; }
    assert x * q == p * (2 * q) + v * (2 * q);
    assert v * w == v * (2 * q) - 11 * (v * k);
    assert sum + v * w - y * q == 11 * (j - v * k + h * q);
  }

  /** The weighted sum and the recursion agree on every prefix. */
  lemma {:induction false} WeightedIsCarry(s: string, n: nat)
    requires |s| >= 17 && All(IsDigit, s[..17]) && n <= 17
    ensures Same(Sum(IdTerms(s)[..n]), Carry(s[..17][..n]) * Pow(2, 17 - n))
  {
    var t, d := IdTerms(s), s[..17];
    if n > 0 {
      WeightedIsCarry(s, n - 1);
      assert t[..n][..n - 1] == t[..n - 1] && d[..n][..n - 1] == d[..n - 1];
      var k := IdWeightIs(n - 1);
      CarryStep(Sum(t[..n - 1]), Carry(d[..n - 1]), DigitValue(d[n - 1]), IdWeight(n - 1), Pow(2, 17 - n), k);
    }
  }

  lemma {:induction false} SumIsCarry(s: string)
    requires |s| >= 17 && All(IsDigit, s[..17])
    ensures Sum(IdTerms(s)) % 11 == Carry(s[..17])
  {
    WeightedIsCarry(s, 17);
    assert IdTerms(s)[..17] == IdTerms(s) && s[..17][..17] == s[..17];
    assert Pow(2, 0) == 1;
  }

  lemma {:induction false} CodeIs(r: nat, c: char)
    requires r < 11
    ensures c == ID_CODES[r] <==> (c == 'X' || IsDigit(c)) && (r + CheckValue(c)) % 11 == 1
  {
  }

  /**
   Seventeen digits and a character pass if and only if they begin with a known province, hold a
   real date of birth, and the standard's recursion ends in 1 with the check character.
   */
  lemma {:induction false} IdOkIff(s: string, nowYear: int)
    requires |s| == 18 && All(IsDigit, s[..17])
    ensures IdOk(s, nowYear) <==>
            var y, m, d, c := Number(s[..17][6..10]), Number(s[..17][10..12]), Number(s[..17][12..14]), UpperAscii(s[17]);
            && IsProvince(s[0], s[1]) && Calendar.IsRealDate(y, m, d) && 1880 <= y <= nowYear
            && (c == 'X' || IsDigit(c)) && (Carry(s[..17]) + CheckValue(c)) % 11 == 1
  {
    SumIsCarry(s);
    CodeIs(Carry(s[..17]), UpperAscii(s[17]));
  }

  // ----------------------------------------------------------------------- GB 32100-2015

  lemma {:induction false} TripleMod(p: int)
    ensures 3 * p % 31 == 3 * (p % 31) % 31
  {
    assert 3 * p == 31 * (3 * (p / 31)) + 3 * (p % 31);
  }

  lemma {:induction false} NextWeight(i: nat)
    requires i < 16
    ensures UsccWeight(i + 1) == 3 * UsccWeight(i) % 31
  {
    PowersOfThree(i);
  }

  /** The weights are the powers of three modulo 31. */
  lemma {:induction false} UsccWeightIs(i: nat)
    requires i < 17
    ensures UsccWeight(i) == Pow(3, i) % 31
  {
    if i > 0 {
      UsccWeightIs(i - 1);
      NextWeight(i - 1);
      TripleMod(Pow(3, i - 1));
    }
  }
}
