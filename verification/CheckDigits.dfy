/**
 The check-digit schemes of src/mask/validators.rs: Luhn, ISO 7064 MOD 11-2, the MOD 97
 remainder of IBAN and the MOD 31 scheme of GB 32100-2015, and the errors each detects.
 */
module CheckDigits {
  import opened Wrappers
  import opened Placeholders
  import Calendar

  // ------------------------------------------------------------------ sums of terms

  function Sum(t: seq<int>): int { if t == [] then 0 else Sum(t[..|t| - 1]) + t[|t| - 1] }

  /** Replacing a term moves the sum by the difference. */
  lemma {:induction false} SumUpdate(t: seq<int>, i: nat, x: int)
    requires i < |t|
    ensures Sum(t[i := x]) == Sum(t) - t[i] + x
  {
    var n := |t| - 1;
    if i == n {
      assert t[i := x][..n] == t[..n];
    } else {
      assert t[i := x][..n] == t[..n][i := x];
      SumUpdate(t[..n], i, x);
    }
  }

  /** One character replaced by another. */
  function Subst(s: string, i: nat, c: char): string
    requires i < |s|
  {
    s[i := c]
  }

  /** Two neighbours exchanged. */
  function Swap(s: string, i: nat): string
    requires i + 1 < |s|
  {
    s[i := s[i + 1]][i + 1 := s[i]]
  }

  function DigitValue(c: char): (d: nat)
    requires IsDigit(c)
    ensures d < 10
  {
    c as int - '0' as int
  }

  // ---------------------------------------------------------------------------- Luhn

  function Doubled(d: nat): nat { if d > 4 then d * 2 - 9 else d * 2 }

  function Counted(double: bool, d: nat): nat { if double then Doubled(d) else d }

  /** Every second digit from the right counts double. */
  predicate IsDoubled(n: nat, i: nat) { (n - 1 - i) % 2 == 1 }

  function LuhnTerm(s: string, i: nat): int
    requires i < |s| && IsDigit(s[i])
  {
    Counted(IsDoubled(|s|, i), DigitValue(s[i]))
  }

  function LuhnTerms(s: string): (t: seq<int>)
    requires All(IsDigit, s)
    ensures |t| == |s| && forall i :: 0 <= i < |s| ==> t[i] == LuhnTerm(s, i)
  {
    seq(|s|, i requires 0 <= i < |s| => LuhnTerm(s, i))
  }

  /** What `filter_map(to_digit)` keeps. */
  function DigitsOf(s: string): (d: string)
    ensures All(IsDigit, d)
  {
    if s == [] then [] else (if IsDigit(s[0]) then [s[0]] else []) + DigitsOf(s[1..])
  }

  function LuhnSum(d: string): int
    requires All(IsDigit, d)
  {
    Sum(LuhnTerms(d))
  }

  predicate LuhnOk(num: string) {
    var d := DigitsOf(num);
    |d| >= 12 && LuhnSum(d) % 10 == 0
  }

  lemma {:induction false} LuhnOfDigits(s: string)
    requires All(IsDigit, s)
    ensures LuhnOk(s) <==> |s| >= 12 && LuhnSum(s) % 10 == 0
  {
    DigitsKept(s);
  }

  /** luhn_ok: the loop from the right. */
  method Luhn(num: string) returns (ok: bool)
    ensures ok == LuhnOk(num)
  {
    var d := DigitsOf(num);
    if |d| < 12 { return false; }
    var sum, dbl, i := 0, false, |d|;
    assert LuhnTerms(d)[..|d|] == LuhnTerms(d);
    while i > 0
      invariant 0 <= i <= |d| && (dbl <==> (|d| - i) % 2 == 1)
      invariant sum + Sum(LuhnTerms(d)[..i]) == Sum(LuhnTerms(d))
    {
      assert LuhnTerms(d)[..i][..i - 1] == LuhnTerms(d)[..i - 1];
      i := i - 1;
      var v := DigitValue(d[i]);
      sum := sum + (if dbl then Doubled(v) else v);
      dbl := !dbl;
    }
    ok := sum % 10 == 0;
  }

  lemma {:induction false} DigitsKept(s: string)
    requires All(IsDigit, s)
    ensures DigitsOf(s) == s
  {
    if s != [] {
      assert IsDigit(s[0]);
      assert All(IsDigit, s[1..]);
      DigitsKept(s[1..]);
    }
  }

  lemma {:induction false} LuhnMoves(s: string, i: nat, c: char)
    requires All(IsDigit, s) && i < |s| && IsDigit(c)
    ensures All(IsDigit, Subst(s, i, c))
    ensures LuhnSum(Subst(s, i, c))
         == LuhnSum(s) - Counted(IsDoubled(|s|, i), DigitValue(s[i])) + Counted(IsDoubled(|s|, i), DigitValue(c))
  {
    var u := Subst(s, i, c);
    assert LuhnTerms(u) == LuhnTerms(s)[i := LuhnTerm(u, i)];
    SumUpdate(LuhnTerms(s), i, LuhnTerm(u, i));
  }

  lemma {:induction false} CountedDiffers(double: bool, a: nat, b: nat, sum: int)
    requires a < 10 && b < 10 && a != b && sum % 10 == 0
    ensures (sum - Counted(double, a) + Counted(double, b)) % 10 != 0
  {
    assert -9 <= Counted(double, b) - Counted(double, a) <= 9;
  }

  /** Luhn rejects every replacement of one digit by another. */
  lemma {:induction false} LuhnSubstitution(s: string, i: nat, c: char)
    requires All(IsDigit, s) && LuhnOk(s) && i < |s| && IsDigit(c) && c != s[i]
    ensures !LuhnOk(Subst(s, i, c))
  {
    LuhnMoves(s, i, c);
    LuhnOfDigits(s);
    LuhnOfDigits(Subst(s, i, c));
    CountedDiffers(IsDoubled(|s|, i), DigitValue(s[i]), DigitValue(c), LuhnSum(s));
  }

  lemma {:induction false} SwapCounted(double: bool, a: nat, b: nat, sum: int)
    requires a < 10 && b < 10 && a != b && sum % 10 == 0
    ensures (sum - Counted(double, a) + Counted(double, b) - Counted(!double, b) + Counted(!double, a)) % 10 == 0
       <==> (a == 0 && b == 9) || (a == 9 && b == 0)
  {
    var d := Doubled(b) - b - (Doubled(a) - a);
    assert Doubled(a) - a == (if a > 4 then a - 9 else a) && Doubled(b) - b == (if b > 4 then b - 9 else b);
    assert -9 < d < 9 && (d == 0 <==> (a == 0 && b == 9) || (a == 9 && b == 0));
  }

  /** Luhn rejects an exchange of unequal neighbours if and only if they are not 0 and 9. */
  lemma {:induction false} LuhnTransposition(s: string, i: nat)
    requires All(IsDigit, s) && LuhnOk(s) && i + 1 < |s| && s[i] != s[i + 1]
    ensures LuhnOk(Swap(s, i)) <==> (s[i] == '0' && s[i + 1] == '9') || (s[i] == '9' && s[i + 1] == '0')
  {
    var mid := Subst(s, i, s[i + 1]);
    LuhnMoves(s, i, s[i + 1]);
    LuhnMoves(mid, i + 1, s[i]);
    assert Swap(s, i) == Subst(mid, i + 1, s[i]);
    LuhnOfDigits(s);
    LuhnOfDigits(Swap(s, i));
    assert IsDoubled(|s|, i + 1) == !IsDoubled(|s|, i);
    SwapCounted(IsDoubled(|s|, i), DigitValue(s[i]), DigitValue(s[i + 1]), LuhnSum(s));
  }

  // -------------------------------------------------------------- ISO 7064 MOD 11-2

  function IdWeight(i: nat): int
    requires i < 17
  {
    [7, 9, 10, 5, 8, 4, 2, 1, 6, 3, 7, 9, 10, 5, 8, 4, 2][i]
  }

  const ID_CODES: string := "10X98765432"

  predicate IsProvince(a: char, b: char) {
    [a, b] in ["11", "12", "13", "14", "15", "21", "22", "23", "31", "32", "33", "34", "35", "36", "37",
               "41", "42", "43", "44", "45", "46", "50", "51", "52", "53", "54", "61", "62", "63", "64", "65",
               "71", "81", "82"]
  }

  function Number(s: string): nat
    requires All(IsDigit, s)
  {
    if s == [] then 0 else Number(s[..|s| - 1]) * 10 + DigitValue(s[|s| - 1])
  }

  function UpperAscii(c: char): char { if IsLower(c) then c - 'a' + 'A' else c }

  function IdTerms(s: string): (t: seq<int>)
    requires |s| >= 17 && All(IsDigit, s[..17])
    ensures |t| == 17 && forall i :: 0 <= i < 17 ==> t[i] == DigitValue(s[..17][i]) * IdWeight(i)
  {
    seq(17, i requires 0 <= i < 17 => DigitValue(s[..17][i]) * IdWeight(i))
  }

  /** idcard18_ok_at, for an ASCII string. */
  predicate IdOk(s: string, nowYear: int) {
    && |s| == 18 && All(IsDigit, s[..17])
    && IsProvince(s[0], s[1])
    && var y, m, d := Number(s[..17][6..10]), Number(s[..17][10..12]), Number(s[..17][12..14]);
       && Calendar.IsRealDate(y, m, d) && 1880 <= y <= nowYear
       && UpperAscii(s[17]) == ID_CODES[Sum(IdTerms(s)) % 11]
  }

  /** The check character as a number. */
  function CheckValue(c: char): int { if c == 'X' then 10 else c as int - '0' as int }

  /** The sum that the check character completes. */
  predicate IdCongruent(s: string) {
    && |s| == 18 && All(IsDigit, s[..17])
    && (Sum(IdTerms(s)) + CheckValue(UpperAscii(s[17]))) % 11 == 1 && 0 <= CheckValue(UpperAscii(s[17])) <= 10
  }

  lemma {:induction false} IdIsCongruent(s: string, nowYear: int)
    requires IdOk(s, nowYear)
    ensures IdCongruent(s)
  {
    var r := Sum(IdTerms(s)) % 11;
    assert CheckValue(ID_CODES[r]) == (12 - r) % 11;
  }

  /** Two congruent strings that differ in one digit only. */
  lemma {:induction false} IdMoves(s: string, i: nat, c: char)
    requires |s| == 18 && All(IsDigit, s[..17]) && i < 17 && IsDigit(c)
    ensures All(IsDigit, Subst(s, i, c)[..17])
    ensures Sum(IdTerms(Subst(s, i, c))) == Sum(IdTerms(s)) + (DigitValue(c) - DigitValue(s[..17][i])) * IdWeight(i)
  {
    var u := Subst(s, i, c);
    assert u[..17] == s[..17][i := c];
    var x := DigitValue(c) * IdWeight(i);
    assert IdTerms(u) == IdTerms(s)[i := x];
    SumUpdate(IdTerms(s), i, x);
    Distribute(DigitValue(c), DigitValue(s[..17][i]), IdWeight(i));
  }

  lemma {:induction false} Distribute(a: int, b: int, w: int)
    ensures (a - b) * w == a * w - b * w
  {
  }

  lemma {:induction false} Mod11(i: nat, d: int)
    requires i < 17 && -10 <= d <= 10 && d != 0
    ensures (d * IdWeight(i)) % 11 != 0
  {
    var w := IdWeight(i);
    if w == 1 {} else if w == 2 {} else if w == 3 {} else if w == 4 {} else if w == 5 {}
    else if w == 6 {} else if w == 7 {} else if w == 8 {} else if w == 9 {} else { assert w == 10; }
  }

  /** Neighbouring weights differ by no multiple of 11, and so do the last weight and that of the check character. */
  lemma {:induction false} Mod11Neighbours(i: nat, d: int)
    requires i < 16 && -9 <= d <= 9 && d != 0
    ensures (d * (IdWeight(i + 1) - IdWeight(i))) % 11 != 0
  {
    var w := IdWeight(i + 1) - IdWeight(i);
    assert w in [-7, -6, -5, -4, -3, -2, -1, 1, 2, 3, 4, 5];
  }

  lemma {:induction false} NotCongruent(sum: int, delta: int)
    requires sum % 11 == 1 && delta % 11 != 0
    ensures (sum + delta) % 11 != 1
  {
  }

  lemma {:induction false} IdSubstituted(s: string, i: nat, c: char)
    requires IdCongruent(s) && i < 17 && c != s[i]
    ensures !IdCongruent(Subst(s, i, c))
  {
    var u := Subst(s, i, c);
    if IdCongruent(u) {
      assert u[..17][i] == c && s[..17][i] == s[i];
      IdMoves(s, i, c);
      var d := DigitValue(c) - DigitValue(s[i]);
      Mod11(i, d);
      NotCongruent(Sum(IdTerms(s)) + CheckValue(UpperAscii(s[17])), d * IdWeight(i));
    }
  }

  lemma {:induction false} IdCheckSubstituted(s: string, c: char)
    requires IdCongruent(s) && UpperAscii(c) != UpperAscii(s[17])
    ensures !IdCongruent(Subst(s, 17, c)) || CheckValue(UpperAscii(c)) == CheckValue(UpperAscii(s[17]))
  {
    var u := Subst(s, 17, c);
    if IdCongruent(u) {
      assert u[..17] == s[..17];
      assert IdTerms(u) == IdTerms(s);
      var d := CheckValue(UpperAscii(c)) - CheckValue(UpperAscii(s[17]));
      if d != 0 { NotCongruent(Sum(IdTerms(s)) + CheckValue(UpperAscii(s[17])), d); }
    }
  }

  lemma {:induction false} CheckIsCode(s: string, nowYear: int)
    requires IdOk(s, nowYear)
    ensures UpperAscii(s[17]) == 'X' || IsDigit(UpperAscii(s[17]))
  {
    var r := Sum(IdTerms(s)) % 11;
    assert ID_CODES[r] == 'X' || IsDigit(ID_CODES[r]);
  }

  /** MOD 11-2 rejects every replacement of one character by another, the case of X aside. */
  lemma {:induction false} IdSubstitution(s: string, nowYear: int, i: nat, c: char)
    requires IdOk(s, nowYear) && i < 18 && UpperAscii(c) != UpperAscii(s[i])
    ensures !IdOk(Subst(s, i, c), nowYear)
  {
    var u := Subst(s, i, c);
    if IdOk(u, nowYear) {
      IdIsCongruent(s, nowYear);
      IdIsCongruent(u, nowYear);
      if i < 17 {
        IdSubstituted(s, i, c);
      } else {
        CheckIsCode(s, nowYear);
        CheckIsCode(u, nowYear);
        IdCheckSubstituted(s, c);
      }
    }
  }

  lemma {:induction false} IdSwapped(s: string, i: nat)
    requires IdCongruent(s) && i < 16 && s[i] != s[i + 1]
    ensures !IdCongruent(Swap(s, i))
  {
    var mid := Subst(s, i, s[i + 1]);
    assert s[..17][i] == s[i] && s[..17][i + 1] == s[i + 1];
    IdMoves(s, i, s[i + 1]);
    assert mid[..17][i + 1] == s[i + 1];
    IdMoves(mid, i + 1, s[i]);
    assert Swap(s, i) == Subst(mid, i + 1, s[i]);
    var a, b := DigitValue(s[i]), DigitValue(s[i + 1]);
    Exchange(a, b, IdWeight(i), IdWeight(i + 1));
    Mod11Neighbours(i, a - b);
    NotCongruent(Sum(IdTerms(s)) + CheckValue(UpperAscii(s[17])), (a - b) * (IdWeight(i + 1) - IdWeight(i)));
  }

  lemma {:induction false} Exchange(a: int, b: int, v: int, w: int)
    ensures (b - a) * v + (a - b) * w == (a - b) * (w - v)
  {
  }

  lemma {:induction false} IdLastTerms(s: string)
    requires |s| == 18 && All(IsDigit, s[..17]) && IsDigit(s[17])
    ensures All(IsDigit, Swap(s, 16)[..17])
    ensures Sum(IdTerms(Swap(s, 16))) == Sum(IdTerms(s)) + (DigitValue(s[17]) - DigitValue(s[..17][16])) * 2
  {
    var mid := Subst(s, 16, s[17]);
    IdMoves(s, 16, s[17]);
    assert mid[..17] == Swap(s, 16)[..17];
    assert IdTerms(Swap(s, 16)) == IdTerms(mid);
    assert IdWeight(16) == 2;
  }

  /** The last digit and the check character: 2a + b against 2b + a. */
  lemma {:induction false} IdLastSwapped(s: string)
    requires IdCongruent(s) && s[16] != s[17]
    ensures !IdCongruent(Swap(s, 16))
  {
    var u := Swap(s, 16);
    assert u[..17][16] == s[17] && s[..17][16] == s[16];
    if IsDigit(s[17]) {
      IdLastTerms(s);
      var a: int, b: int := DigitValue(s[16]), DigitValue(s[17]);
      assert CheckValue(UpperAscii(s[17])) == b && CheckValue(UpperAscii(u[17])) == a;
      NotCongruent(Sum(IdTerms(s)) + b, b - a);
    }
  }

  /** It rejects every exchange of unequal neighbours, too. */
  lemma {:induction false} IdTransposition(s: string, nowYear: int, i: nat)
    requires IdOk(s, nowYear) && i < 17 && s[i] != s[i + 1]
    ensures !IdOk(Swap(s, i), nowYear)
  {
    var u := Swap(s, i);
    if IdOk(u, nowYear) {
      IdIsCongruent(s, nowYear);
      IdIsCongruent(u, nowYear);
      if i < 16 { IdSwapped(s, i); } else { IdLastSwapped(s); }
    }
  }

  // ------------------------------------------------------------ GB 32100-2015 MOD 31

  const USCC_CHARS: string := "0123456789ABCDEFGHJKLMNPQRTUWXY"

  /** The position of a character in the table. */
  function UsccIndex(c: char, k: nat): Option<nat>
    requires k <= 31
    decreases 31 - k
  {
    if k == 31 then None else if USCC_CHARS[k] == c then Some(k) else UsccIndex(c, k + 1)
  }

  function UsccWeight(i: nat): int
    requires i < 17
  {
    [1, 3, 9, 27, 19, 26, 16, 17, 20, 29, 25, 13, 8, 24, 10, 30, 28][i]
  }

  predicate IsUscc(c: char) { UsccIndex(c, 0).Some? }

  function UsccValue(c: char): (v: int)
    ensures 0 <= v <= 31 && (IsUscc(c) ==> v < 31 && USCC_CHARS[v] == c)
  {
    UsccAt(c, 0);
    if IsUscc(c) then UsccIndex(c, 0).value else 0
  }

  lemma {:induction false} UsccAt(c: char, k: nat)
    requires k <= 31
    ensures UsccIndex(c, k).Some? ==> UsccIndex(c, k).value < 31 && USCC_CHARS[UsccIndex(c, k).value] == c
    decreases 31 - k
  {
    if k < 31 { UsccAt(c, k + 1); }
  }

  function UsccTerm(i: nat, c: char): int
    requires i < 17
  {
    UsccWeight(i) * UsccValue(c)
  }

  function UsccTerms(s: string): (t: seq<int>)
    requires |s| >= 17
    ensures |t| == 17 && forall i :: 0 <= i < 17 ==> t[i] == UsccTerm(i, s[i])
  {
    seq(17, i requires 0 <= i < 17 => UsccTerm(i, s[i]))
  }

  predicate UsccOk(s: string) {
    && |s| == 18 && All(IsUscc, s[..17])
    && s[17] == USCC_CHARS[(31 - Sum(UsccTerms(s)) % 31) % 31]
  }

  /** uscc_ok, for an ASCII string. */
  method Uscc(s: string) returns (ok: bool)
    ensures ok == UsccOk(s)
  {
    if |s| != 18 { return false; }
    var total := 0;
    for i := 0 to 17
      invariant total == Sum(UsccTerms(s)[..i])
      invariant All(IsUscc, s[..i])
    {
      assert UsccTerms(s)[..i + 1][..i] == UsccTerms(s)[..i];
      assert s[..17][i] == s[i] && s[..i + 1] == s[..i] + [s[i]];
      match UsccIndex(s[i], 0)
      case None => return false;
      case Some(v) => total := total + UsccWeight(i) * v;
    }
    assert UsccTerms(s)[..17] == UsccTerms(s);
    ok := USCC_CHARS[(31 - total % 31) % 31] == s[17];
  }

  /** The sum over all 18 characters, the check character with weight one. */
  predicate UsccCongruent(s: string) {
    |s| == 18 && (Sum(UsccTerms(s)) + UsccValue(s[17])) % 31 == 0 && forall i :: 0 <= i < 18 ==> IsUscc(s[i])
  }

  lemma {:induction false} UsccOfChar(k: nat)
    requires k < 31
    ensures UsccIndex(USCC_CHARS[k], 0) == Some(k)
  {
    UsccFrom(k, 0);
  }

  lemma {:induction false} UsccFrom(k: nat, j: nat)
    requires j <= k < 31
    ensures UsccIndex(USCC_CHARS[k], j) == Some(k)
    decreases k - j
  {
    if j < k {
      CharsDiffer(j, k);
      UsccFrom(k, j + 1);
    }
  }

  /** The table has no character twice: letters and digits ascend. */
  lemma {:induction false} CharsDiffer(j: nat, k: nat)
    requires j < k < 31
    ensures USCC_CHARS[j] < USCC_CHARS[k]
    decreases k
  {
    if j < k - 1 { CharsDiffer(j, k - 1); }
    var c, d := USCC_CHARS[k - 1], USCC_CHARS[k];
    assert c < d;
  }

  lemma {:induction false} CheckOfTotal(total: int, v: int)
    requires 0 <= v < 31
    ensures (31 - total % 31) % 31 == v <==> (total + v) % 31 == 0
  {
  }

  /** Whether the check character is right is one congruence. */
  lemma {:induction false} UsccIsCongruence(s: string)
    ensures UsccOk(s) <==> UsccCongruent(s)
  {
    if |s| == 18 {
      AllUscc(s);
      CheckIsCongruence(Sum(UsccTerms(s)), s[17]);
    }
  }

  lemma {:induction false} CheckIsCongruence(total: int, c: char)
    ensures c == USCC_CHARS[(31 - total % 31) % 31] <==> IsUscc(c) && (total + UsccValue(c)) % 31 == 0
  {
    CheckIsUscc(c, (31 - total % 31) % 31);
    CheckOfTotal(total, UsccValue(c) % 31);
  }

  lemma {:induction false} AllUscc(s: string)
    requires |s| == 18
    ensures (forall i :: 0 <= i < 18 ==> IsUscc(s[i])) <==> All(IsUscc, s[..17]) && IsUscc(s[17])
  {
    assert forall i :: 0 <= i < 17 ==> s[..17][i] == s[i];
  }

  lemma {:induction false} CheckIsUscc(c: char, check: nat)
    requires check < 31
    ensures c == USCC_CHARS[check] <==> IsUscc(c) && UsccValue(c) == check
  {
    UsccOfChar(check);
  }

  lemma {:induction false} UsccMoves(s: string, i: nat, c: char)
    requires |s| == 18 && i < 17
    ensures Sum(UsccTerms(Subst(s, i, c))) == Sum(UsccTerms(s)) + UsccTerm(i, c) - UsccTerm(i, s[i])
  {
    var u := Subst(s, i, c);
    assert UsccTerms(u) == UsccTerms(s)[i := UsccTerm(i, c)];
    SumUpdate(UsccTerms(s), i, UsccTerm(i, c));
  }

  /** The weights are the powers of three. */
  lemma {:induction false} PowersOfThree(i: nat)
    requires i < 16
    ensures UsccWeight(i + 1) == 3 * UsccWeight(i) - 31 * (3 * UsccWeight(i) / 31)
  {
  }

  lemma {:induction false} Times(a: int, b: int, d: int)
    ensures (3 * a - 31 * b) * d == 3 * (a * d) - 31 * (b * d)
    ensures (3 * a - 31 * b - a) * d == 2 * (a * d) - 31 * (b * d)
  {
  }

  /** No weight makes a difference vanish. */
  lemma {:induction false} Mod31(i: nat, d: int)
    requires i < 17 && d % 31 != 0
    ensures (UsccWeight(i) * d) % 31 != 0
  {
    if i > 0 {
      var w := UsccWeight(i - 1);
      Mod31(i - 1, d);
      PowersOfThree(i - 1);
      Times(w, 3 * w / 31, d);
      Thrice(w * d, (3 * w / 31) * d);
    }
  }

  lemma {:induction false} Thrice(x: int, y: int)
    requires x % 31 != 0
    ensures (3 * x - 31 * y) % 31 != 0 && (2 * x - 31 * y) % 31 != 0
  {
  }

  /** Nor does the difference of neighbouring weights. */
  lemma {:induction false} Mod31Neighbours(i: nat, d: int)
    requires i < 16 && d % 31 != 0
    ensures ((UsccWeight(i + 1) - UsccWeight(i)) * d) % 31 != 0
  {
    var w := UsccWeight(i);
    Mod31(i, d);
    PowersOfThree(i);
    Times(w, 3 * w / 31, d);
    Thrice(w * d, (3 * w / 31) * d);
  }

  lemma {:induction false} UsccDiffer(a: char, b: char)
    requires IsUscc(a) && IsUscc(b) && a != b
    ensures (UsccValue(a) - UsccValue(b)) % 31 != 0
  {
    UsccSameValue(a, b);
    SmallDifference(UsccValue(a), UsccValue(b));
  }

  lemma {:induction false} UsccSameValue(a: char, b: char)
    requires IsUscc(a) && IsUscc(b)
    ensures 0 <= UsccValue(a) < 31 && (UsccValue(a) == UsccValue(b) ==> a == b)
  {
  }

  lemma {:induction false} SmallDifference(a: int, b: int)
    requires 0 <= a < 31 && 0 <= b < 31 && a != b
    ensures (a - b) % 31 != 0
  {
  }

  lemma {:induction false} NotCongruent31(sum: int, delta: int)
    requires sum % 31 == 0 && delta % 31 != 0
    ensures (sum + delta) % 31 != 0
  {
  }

  lemma {:induction false} UsccSubstituted(s: string, i: nat, c: char)
    requires |s| == 18 && i < 18 && (Sum(UsccTerms(s)) + UsccValue(s[17])) % 31 == 0
    requires IsUscc(s[i]) && IsUscc(c) && c != s[i]
    ensures (Sum(UsccTerms(Subst(s, i, c))) + UsccValue(Subst(s, i, c)[17])) % 31 != 0
  {
    UsccDiffer(c, s[i]);
    var d := UsccValue(c) - UsccValue(s[i]);
    var sum := Sum(UsccTerms(s)) + UsccValue(s[17]);
    if i < 17 {
      UsccMoves(s, i, c);
      Mod31(i, d);
      Factor(UsccWeight(i), UsccValue(c), UsccValue(s[i]));
      NotCongruent31(sum, UsccWeight(i) * d);
    } else {
      assert UsccTerms(Subst(s, i, c)) == UsccTerms(s);
      NotCongruent31(sum, d);
    }
  }

  lemma {:induction false} UsccParts(s: string, i: nat)
    requires UsccOk(s) && i < 18
    ensures |s| == 18 && (Sum(UsccTerms(s)) + UsccValue(s[17])) % 31 == 0 && IsUscc(s[i])
  {
    UsccIsCongruence(s);
    CongruentParts(s, i);
  }

  lemma {:induction false} CongruentParts(s: string, i: nat)
    requires UsccCongruent(s) && i < 18
    ensures |s| == 18 && (Sum(UsccTerms(s)) + UsccValue(s[17])) % 31 == 0 && IsUscc(s[i])
  {
  }

  lemma {:induction false} UsccRejected(u: string, i: nat)
    requires |u| == 18 && i < 18 && (!IsUscc(u[i]) || (Sum(UsccTerms(u)) + UsccValue(u[17])) % 31 != 0)
    ensures !UsccOk(u)
  {
    assert !UsccCongruent(u);
    UsccIsCongruence(u);
  }

  /** MOD 31 rejects every replacement of one character by another. */
  lemma {:induction false} UsccSubstitution(s: string, i: nat, c: char)
    requires UsccOk(s) && i < 18 && c != s[i]
    ensures !UsccOk(Subst(s, i, c))
  {
    UsccParts(s, i);
    if IsUscc(c) { UsccSubstituted(s, i, c); }
    UsccRejected(Subst(s, i, c), i);
  }

  lemma {:induction false} Factor(w: int, a: int, b: int)
    ensures w * a - w * b == w * (a - b)
  {
  }

  lemma {:induction false} UsccSwapped(s: string, i: nat)
    requires |s| == 18 && i < 16 && (Sum(UsccTerms(s)) + UsccValue(s[17])) % 31 == 0
    requires IsUscc(s[i]) && IsUscc(s[i + 1]) && s[i] != s[i + 1]
    ensures (Sum(UsccTerms(Swap(s, i))) + UsccValue(Swap(s, i)[17])) % 31 != 0
  {
    var mid := Subst(s, i, s[i + 1]);
    UsccDiffer(s[i], s[i + 1]);
    var a, b := UsccValue(s[i]), UsccValue(s[i + 1]);
    UsccMoves(s, i, s[i + 1]);
    assert Swap(s, i) == Subst(mid, i + 1, s[i]);
    UsccMoves(mid, i + 1, s[i]);
    Mod31Neighbours(i, a - b);
    CrossFactor(UsccWeight(i), UsccWeight(i + 1), a, b);
    NotCongruent31(Sum(UsccTerms(s)) + UsccValue(s[17]), (UsccWeight(i + 1) - UsccWeight(i)) * (a - b));
  }

  lemma {:induction false} LastWeights(d: int)
    requires d % 31 != 0
    ensures (-27 * d) % 31 != 0
  {
    var k, r := -27 * d / 31, (-27 * d) % 31;
    assert d == 31 * (8 * k + 7 * d) + 8 * r;
  }

  lemma {:induction false} UsccLastSwapped(s: string)
    requires |s| == 18 && (Sum(UsccTerms(s)) + UsccValue(s[17])) % 31 == 0
    requires IsUscc(s[16]) && IsUscc(s[17]) && s[16] != s[17]
    ensures (Sum(UsccTerms(Swap(s, 16))) + UsccValue(Swap(s, 16)[17])) % 31 != 0
  {
    var u, mid := Swap(s, 16), Subst(s, 16, s[17]);
    UsccDiffer(s[16], s[17]);
    UsccMoves(s, 16, s[17]);
    assert UsccTerms(u) == UsccTerms(mid);
    assert UsccWeight(16) == 28;
    var a, b := UsccValue(s[16]), UsccValue(s[17]);
    LastWeights(a - b);
    NotCongruent31(Sum(UsccTerms(s)) + b, -27 * (a - b));
  }

  /** It rejects every exchange of unequal neighbours, too. */
  lemma {:induction false} UsccTransposition(s: string, i: nat)
    requires UsccOk(s) && i < 17 && s[i] != s[i + 1]
    ensures !UsccOk(Swap(s, i))
  {
    UsccParts(s, i);
    UsccParts(s, i + 1);
    if i < 16 { UsccSwapped(s, i); } else { UsccLastSwapped(s); }
    UsccRejected(Swap(s, i), i);
  }

  lemma {:induction false} CrossFactor(v: int, w: int, a: int, b: int)
    ensures v * b - v * a + w * a - w * b == (w - v) * (a - b)
  {
  }

  // ------------------------------------------------------------------- MOD 97, IBAN

  predicate IsAlnum(c: char) { IsUpper(c) || IsDigit(c) }

  /** A letter counts as two digits, 10 to 35. */
  function Base(c: char): int { if IsUpper(c) then 100 else 10 }

  function IbanValue(c: char): int
    requires IsAlnum(c)
  {
    if IsUpper(c) then c as int - 'A' as int + 10 else DigitValue(c)
  }

  /** The number the expanded string stands for. */
  function Big(s: string): int
    requires All(IsAlnum, s)
  {
    if s == [] then 0 else Big(s[..|s| - 1]) * Base(s[|s| - 1]) + IbanValue(s[|s| - 1])
  }

  predicate IsAnyAlnum(c: char) { IsAlnum(c) || IsLower(c) }

  /** Two capital letters, two digits, then letters and digits; 15 to 36 in all. */
  predicate IbanLike(s: string) {
    && 15 <= |s| <= 36 && IsUpper(s[0]) && IsUpper(s[1]) && IsDigit(s[2]) && IsDigit(s[3]) && All(IsAnyAlnum, s)
  }

  /** The same without small letters, which have no value. */
  predicate IbanShape(s: string) { IbanLike(s) && All(IsAlnum, s) }

  function Rotated(s: string): string
    requires |s| >= 4
  {
    s[4..] + s[..4]
  }

  lemma {:induction false} RotatedAlnum(s: string)
    requires |s| >= 4 && All(IsAlnum, s)
    ensures All(IsAlnum, Rotated(s))
  {
    assert forall i :: 0 <= i < |s| - 4 ==> s[4..][i] == s[4 + i];
  }

  /** What iban_ok decides, for upper-case input: the big number is one modulo 97. */
  predicate IbanOk(s: string) {
    IbanShape(s) && (RotatedAlnum(s); Big(Rotated(s)) % 97 == 1)
  }

  lemma {:induction false} RotatedBack(s: string)
    requires |s| >= 4 && All(IsAlnum, Rotated(s))
    ensures All(IsAlnum, s)
  {
    var r := Rotated(s);
    forall i | 0 <= i < |s| ensures IsAlnum(s[i]) { assert s[i] == r[if i < 4 then |s| - 4 + i else i - 4]; }
  }

  lemma {:induction false} BigMore(s: string, i: nat)
    requires i < |s| && All(IsAlnum, s[..i]) && IsAlnum(s[i])
    ensures All(IsAlnum, s[..i + 1])
    ensures Big(s[..i + 1]) == if IsUpper(s[i]) then Big(s[..i]) * 100 + IbanValue(s[i]) else Big(s[..i]) * 10 + IbanValue(s[i])
  {
    var t := s[..i + 1];
    assert t == s[..i] + [s[i]] && t[..i] == s[..i];
  }

  /** The digits of one character are added to the remainder. */
  method AddPiece(rem: int, c: char) returns (out: int)
    requires IsAlnum(c)
    ensures var v := IbanValue(c);
            out == if IsUpper(c) then ((rem * 10 + v / 10) % 97 * 10 + v % 10) % 97 else (rem * 10 + v) % 97
  {
    var v := IbanValue(c);
    var piece := if IsUpper(c) then [v / 10, v % 10] else [v];
    out := rem;
    for k := 0 to |piece|
      invariant out == if k == 0 then rem else if k == 1 then (rem * 10 + piece[0]) % 97
                       else ((rem * 10 + piece[0]) % 97 * 10 + piece[1]) % 97
    {
      out := (out * 10 + piece[k]) % 97;
    }
  }

  /**
   iban_ok on a trimmed string: a running remainder instead of the big number. None: a small
   letter, which the source takes for a digit and stops the program at.
   */
  method Iban(s: string) returns (ok: Option<bool>)
    ensures ok == if IbanLike(s) && !All(IsAlnum, s) then None else Some(IbanOk(s))
  {
    if !IbanLike(s) { return Some(false); }
    if All(IsAlnum, s) { RotatedAlnum(s); }
    var r := Rotated(s);
    var rem := 0;
    for i := 0 to |r|
      invariant All(IsAlnum, r[..i]) && rem == Big(r[..i]) % 97
    {
      if !IsAlnum(r[i]) { return None; }
      BigMore(r, i);
      RunningRemainder(Big(r[..i]), rem, IbanValue(r[i]));
      rem := AddPiece(rem, r[i]);
    }
    assert r[..|r|] == r;
    RotatedBack(s);
    ok := Some(rem == 1);
  }

  lemma {:induction false} AddMultiple(x: int, q: int)
    ensures (x + 97 * q) % 97 == x % 97
  {
  }

  lemma {:induction false} DigitStep(big: int, d: int)
    ensures (big % 97 * 10 + d) % 97 == (big * 10 + d) % 97
  {
    var q := big / 97;
    assert big * 10 + d == big % 97 * 10 + d + 97 * (10 * q);
    AddMultiple(big % 97 * 10 + d, 10 * q);
  }

  lemma {:induction false} RunningRemainder(big: int, rem: int, v: int)
    requires rem == big % 97 && 0 <= v
    ensures (rem * 10 + v) % 97 == (big * 10 + v) % 97
    ensures ((rem * 10 + v / 10) % 97 * 10 + v % 10) % 97 == (big * 100 + v) % 97
  {
    DigitStep(big, v);
    DigitStep(big, v / 10);
    DigitStep(big * 10 + v / 10, v % 10);
    assert (big * 10 + v / 10) * 10 + v % 10 == big * 100 + v;
  }

  /** Multiplying by ten or a hundred makes no difference vanish. */
  lemma {:induction false} ScaleDiffers(x: int, y: int, c: char)
    requires (x - y) % 97 != 0
    ensures (x * Base(c) - y * Base(c)) % 97 != 0
  {
    TenTimes(x - y);
    if IsUpper(c) {
      TenTimes(10 * (x - y));
      assert x * Base(c) - y * Base(c) == 10 * (10 * (x - y));
    } else {
      assert x * Base(c) - y * Base(c) == 10 * (x - y);
    }
  }

  lemma {:induction false} TenTimes(d: int)
    requires d % 97 != 0
    ensures (10 * d) % 97 != 0
  {
    var k, r := 10 * d / 97, (10 * d) % 97;
    assert d == 97 * (68 * k - 7 * d) + 68 * r;
  }

  /** Two strings that differ in one place, letter for letter or digit for digit, have different remainders. */
  lemma {:induction false} BigUpdate(s: string, i: nat, c: char)
    requires All(IsAlnum, s) && i < |s| && IsAlnum(c) && c != s[i] && (IsUpper(c) <==> IsUpper(s[i]))
    ensures All(IsAlnum, s[i := c])
    ensures (Big(s[i := c]) - Big(s)) % 97 != 0
  {
    var n := |s| - 1;
    var u := s[i := c];
    if i == n {
      assert u[..n] == s[..n];
      assert -25 <= IbanValue(c) - IbanValue(s[n]) <= 25;
    } else {
      assert u[..n] == s[..n][i := c];
      BigUpdate(s[..n], i, c);
      ScaleDiffers(Big(u[..n]), Big(s[..n]), s[n]);
    }
  }

  lemma {:induction false} RotatedUpdate(s: string, i: nat, c: char)
    requires |s| >= 4 && i < |s|
    ensures Rotated(s[i := c]) == Rotated(s)[(if i < 4 then |s| - 4 + i else i - 4) := c]
    ensures Rotated(s)[if i < 4 then |s| - 4 + i else i - 4] == s[i]
  {
  }

  lemma {:induction false} NotOne(x: int, y: int)
    requires (y - x) % 97 != 0 && x % 97 == 1
    ensures y % 97 != 1
  {
  }

  lemma {:induction false} RotatedDiffers(s: string, i: nat, c: char)
    requires |s| >= 4 && All(IsAlnum, s) && i < |s| && IsAlnum(c) && c != s[i] && (IsUpper(c) <==> IsUpper(s[i]))
    ensures All(IsAlnum, Rotated(s)) && All(IsAlnum, Rotated(s[i := c]))
    ensures (Big(Rotated(s[i := c])) - Big(Rotated(s))) % 97 != 0
  {
    RotatedAlnum(s);
    RotatedUpdate(s, i, c);
    BigUpdate(Rotated(s), if i < 4 then |s| - 4 + i else i - 4, c);
  }

  /** MOD 97 rejects every replacement of a letter by a letter or a digit by a digit. */
  lemma {:induction false} IbanSubstitution(s: string, i: nat, c: char)
    requires IbanOk(s) && i < |s| && IsAlnum(c) && c != s[i] && (IsUpper(c) <==> IsUpper(s[i]))
    ensures !IbanOk(Subst(s, i, c))
  {
    RotatedDiffers(s, i, c);
    NotOne(Big(Rotated(s)), Big(Rotated(s[i := c])));
  }
}
