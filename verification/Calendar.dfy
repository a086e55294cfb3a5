/** Days to dates: `civil_from_days` of src/store/db.rs, and the date test and the year of src/mask/validators.rs. */
module Calendar {
  predicate IsLeap(y: int) { (y % 4 == 0 && y % 100 != 0) || y % 400 == 0 }

  /** The length of a month. */
  function MonthDays(y: int, m: int): int {
    if m in {1, 3, 5, 7, 8, 10, 12} then 31
    else if m in {4, 6, 9, 11} then 30
    else if IsLeap(y) then 29 else 28
  }

  /** is_real_date */
  predicate IsRealDate(y: int, m: int, d: int) { 1 <= m <= 12 && 1 <= d <= MonthDays(y, m) }

  datatype Date = Date(y: int, m: int, d: int)

  /** The Gregorian calendar, one day at a time. */
  function NextDay(x: Date): Date {
    if x.d < MonthDays(x.y, x.m) then Date(x.y, x.m, x.d + 1)
    else if x.m < 12 then Date(x.y, x.m + 1, 1)
    else Date(x.y + 1, 1, 1)
  }

  /** The n-th day after the first of January 1970. */
  function Nth(n: nat): Date { if n == 0 then Date(1970, 1, 1) else NextDay(Nth(n - 1)) }

  // ------------------------------------------------------------------- the algorithm

  /** Division that truncates toward zero. */
  function TruncDiv(a: int, b: int): int
    requires b > 0
  {
    if a >= 0 then a / b else -(-a / b)
  }

  function Era(z: int): int { TruncDiv(if z >= 0 then z else z - 146096, 146097) }

  function YearOfEra(doe: int): int { (doe - doe / 1460 + doe / 36524 - doe / 146096) / 365 }

  /** The day of a year that begins in March, as month and day. */
  function MonthIndex(doy: int): int { (5 * doy + 2) / 153 }

  function DateOf(y: int, doy: int): Date {
    var mp := MonthIndex(doy);
    var d := doy - (153 * mp + 2) / 5 + 1;
    var m := if mp < 10 then mp + 3 else mp - 9;
    Date(if m <= 2 then y + 1 else y, m, d)
  }

  /** civil_from_days */
  function CivilFromDays(days: int): Date {
    var z := days + 719468;
    var era := Era(z);
    var doe := z - era * 146097;
    var yoe := YearOfEra(doe);
    DateOf(yoe + era * 400, doe - (365 * yoe + yoe / 4 - yoe / 100))
  }

  /** current_year, from the seconds since 1970. */
  function CurrentYear(secs: nat): int {
    var z := secs / 86400 + 719468;
    var era := Era(z);
    var doe := z - era * 146097;
    var yoe := YearOfEra(doe);
    var doy := doe - (365 * yoe + yoe / 4 - yoe / 100);
    var mp := (5 * doy + 2) / 153;
    var m := if mp < 10 then mp + 3 else mp - 9;
    if m <= 2 then yoe + era * 400 + 1 else yoe + era * 400
  }

  // ----------------------------------------------------------------------- the year

  /** The days before the March that begins year y. */
  function Before(y: int): int { 365 * y + y / 4 - y / 100 + y / 400 }

  lemma {:induction false} DivStep(y: int)
    ensures (y + 1) / 4 == y / 4 + if (y + 1) % 4 == 0 then 1 else 0
    ensures (y + 1) / 100 == y / 100 + if (y + 1) % 100 == 0 then 1 else 0
    ensures (y + 1) / 400 == y / 400 + if (y + 1) % 400 == 0 then 1 else 0
  {
  }

  lemma {:induction false} Multiples(y: int)
    ensures (y % 400 == 0 ==> y % 100 == 0) && (y % 100 == 0 ==> y % 4 == 0)
  {
    if y % 100 == 0 { assert y == 4 * (25 * (y / 100)); }
    if y % 400 == 0 { assert y == 100 * (4 * (y / 400)); }
  }

  lemma {:induction false} YearLength(y: int)
    ensures Before(y + 1) - Before(y) == if IsLeap(y + 1) then 366 else 365
  {
    DivStep(y);
    Multiples(y + 1);
  }

  lemma {:induction false} BeforeGrows(a: int, b: int)
    requires a < b
    ensures Before(a) + 365 <= Before(b)
    decreases b - a
  {
    YearLength(b - 1);
    if a < b - 1 { BeforeGrows(a, b - 1); }
  }

  /** Whole eras have 146097 days. */
  lemma {:induction false} EraDays(era: int, yoe: int)
    ensures Before(yoe + era * 400) == Before(yoe) + era * 146097
  {
    var y := yoe + era * 400;
    assert y / 400 == yoe / 400 + era;
    assert y / 100 == yoe / 100 + 4 * era;
    assert y / 4 == yoe / 4 + 100 * era;
  }

  lemma {:induction false} EraFloors(z: int)
    ensures 0 <= z - Era(z) * 146097 < 146097
  {
  }

  /** A day of an era as centuries, four-year cycles, years and days. */
  lemma {:induction false} Cycles(doe: int) returns (c: int, f: int, g: int, h: int)
    requires 0 <= doe < 146097
    ensures doe == 36524 * c + 1461 * f + 365 * g + h
    ensures 0 <= c <= 3 && 0 <= f <= 24 && 0 <= g <= 3 && 0 <= h <= 365
    ensures h == 365 ==> g == 3 && (f < 24 || c == 3)
  {
    c := if doe / 36524 > 3 then 3 else doe / 36524;
    var r := doe - 36524 * c;
    f := r / 1461;
    var s := r - 1461 * f;
    g := if s / 365 > 3 then 3 else s / 365;
    h := s - 365 * g;
  }

  lemma {:induction false} YearOfCycles(doe: int, c: int, f: int, g: int, h: int)
    requires doe == 36524 * c + 1461 * f + 365 * g + h
    requires 0 <= c <= 3 && 0 <= f <= 24 && 0 <= g <= 3 && 0 <= h <= 365 && 0 <= doe < 146097
    requires h == 365 ==> g == 3 && (f < 24 || c == 3)
    ensures YearOfEra(doe) == 100 * c + 4 * f + g
  {
    var e := if 24 * c + f + 365 * g + h >= 1460 then 1 else 0;
    assert doe == 1460 * (25 * c + f) + (24 * c + f + 365 * g + h);
    assert doe / 1460 == 25 * c + f + e;
    var l := if doe == 146096 then 1 else 0;
    assert doe / 146096 == l;
    assert doe / 36524 == c + l;
    assert doe - doe / 1460 + doe / 36524 - doe / 146096 == 365 * (100 * c + 4 * f + g) + (h - e);
  }

  lemma {:induction false} BeforeCycles(c: int, f: int, g: int)
    requires 0 <= c <= 3 && 0 <= f <= 24 && 0 <= g <= 3
    ensures Before(100 * c + 4 * f + g) == 36524 * c + 1461 * f + 365 * g
  {
    var y := 100 * c + 4 * f + g;
    assert y / 4 == 25 * c + f;
    assert y / 100 == c;
    assert y / 400 == 0;
  }

  /** The year of an era is the one whose days the day falls in. */
  lemma {:induction false} YearOfEraIs(doe: int)
    requires 0 <= doe < 146097
    ensures var y := YearOfEra(doe); 0 <= y < 400 && Before(y) <= doe < Before(y + 1)
  {
    var c, f, g, h := Cycles(doe);
    YearOfCycles(doe, c, f, g, h);
    BeforeCycles(c, f, g);
    var y := 100 * c + 4 * f + g;
    YearLength(y);
    if h == 365 {
      assert y + 1 == 100 * c + 4 * (f + 1);
      assert IsLeap(y + 1);
    }
  }

  /** The year and the day of it, years beginning in March. */
  function YearOf(z: int): int { YearOfEra(z - Era(z) * 146097) + Era(z) * 400 }

  lemma {:induction false} YearIs(z: int)
    ensures Before(YearOf(z)) <= z < Before(YearOf(z) + 1)
  {
    EraFloors(z);
    YearOfEraIs(z - Era(z) * 146097);
    EraDays(Era(z), YearOfEra(z - Era(z) * 146097));
    EraDays(Era(z), YearOfEra(z - Era(z) * 146097) + 1);
  }

  lemma {:induction false} YearUnique(z: int, y: int)
    requires Before(y) <= z < Before(y + 1)
    ensures YearOf(z) == y
  {
    YearIs(z);
    if y < YearOf(z) {
      if y + 1 < YearOf(z) { BeforeGrows(y + 1, YearOf(z)); }
    } else if YearOf(z) < y {
      if YearOf(z) + 1 < y { BeforeGrows(YearOf(z) + 1, y); }
    }
  }

  function DayOf(z: int): int { z - Before(YearOf(z)) }

  function MarchDate(z: int): Date { DateOf(YearOf(z), DayOf(z)) }

  lemma {:induction false} DayOfEra(z: int, era: int, yoe: int)
    requires era == Era(z) && yoe == YearOfEra(z - era * 146097) && 0 <= yoe < 400
    ensures DayOf(z) == z - era * 146097 - (365 * yoe + yoe / 4 - yoe / 100)
  {
    EraDays(era, yoe);
    assert yoe / 400 == 0;
  }

  /** The algorithm in terms of the year and the day of it. */
  lemma {:induction false} CivilIs(days: int)
    ensures CivilFromDays(days) == MarchDate(days + 719468)
  {
    var z := days + 719468;
    EraFloors(z);
    YearOfEraIs(z - Era(z) * 146097);
    DayOfEra(z, Era(z), YearOfEra(z - Era(z) * 146097));
  }

  // ---------------------------------------------------------------------- the month

  function MonthStart(mp: int): int { (153 * mp + 2) / 5 }

  /** The month index is the month the day falls in. */
  lemma {:induction false} MonthIs(doy: int)
    requires 0 <= doy <= 365
    ensures var mp := MonthIndex(doy); 0 <= mp <= 11 && MonthStart(mp) <= doy < MonthStart(mp + 1)
  {
  }

  lemma {:induction false} MonthLength(y: int, mp: int)
    requires 0 <= mp <= 10
    ensures var m := if mp < 10 then mp + 3 else mp - 9;
            MonthStart(mp + 1) - MonthStart(mp) == MonthDays(if m <= 2 then y + 1 else y, m)
  {
  }

  lemma {:induction false} SameMonth(doy: int, mp: int)
    requires 0 <= doy <= 365 && 0 <= mp <= 11 && MonthStart(mp) <= doy < MonthStart(mp + 1)
    ensures MonthIndex(doy) == mp
  {
  }

  function YearDays(y: int): int { if IsLeap(y + 1) then 366 else 365 }

  predicate IsReal(x: Date) { IsRealDate(x.y, x.m, x.d) }

  /** From one day of a March year to the next. */
  lemma {:induction false} DateStep(y: int, doy: int)
    requires 0 <= doy && doy + 1 < YearDays(y)
    ensures DateOf(y, doy + 1) == NextDay(DateOf(y, doy)) && IsReal(DateOf(y, doy))
  {
    MonthIs(doy);
    var mp := MonthIndex(doy);
    if mp <= 10 { MonthLength(y, mp); }
    if doy + 1 < MonthStart(mp + 1) {
      SameMonth(doy + 1, mp);
    } else {
      SameMonth(doy + 1, mp + 1);
    }
  }

  /** From the last day of February to the first of March. */
  lemma {:induction false} DateTurn(y: int, doy: int)
    requires doy + 1 == YearDays(y)
    ensures DateOf(y + 1, 0) == NextDay(DateOf(y, doy)) && IsReal(DateOf(y, doy))
  {
    SameMonth(doy, 11);
    SameMonth(0, 0);
  }

  // ------------------------------------------------------------------ the conversion

  /** (y, doy) and the day after it. */
  predicate Follows(y: int, doy: int, y': int, doy': int) {
    && 0 <= doy < YearDays(y)
    && (if doy + 1 < YearDays(y) then y' == y && doy' == doy + 1 else y' == y + 1 && doy' == 0)
  }

  lemma {:induction false} DateFollows(y: int, doy: int, y': int, doy': int)
    requires Follows(y, doy, y', doy')
    ensures DateOf(y', doy') == NextDay(DateOf(y, doy)) && IsReal(DateOf(y, doy))
  {
    if doy + 1 < YearDays(y) { DateStep(y, doy); } else { DateTurn(y, doy); }
  }

  /** The last day of a year, and the others. */
  lemma {:induction false} DayInYear(z: int, y: int, start: int, length: int)
    requires start == Before(y) && length == YearDays(y) && start <= z < start + length
    ensures YearOf(z) == y && DayOf(z) == z - start
    ensures Before(y + 1) == start + length
  {
    YearLength(y);
    YearUnique(z, y);
  }

  lemma {:induction false} NextSame(z: int, y: int, start: int, length: int)
    requires start == Before(y) && length == YearDays(y) && start <= z && z + 1 < start + length
    ensures YearOf(z + 1) == y && DayOf(z + 1) == z - start + 1
  {
    DayInYear(z + 1, y, start, length);
  }

  lemma {:induction false} NextTurn(z: int, y: int)
    requires z + 1 == Before(y + 1)
    ensures YearOf(z + 1) == y + 1 && DayOf(z + 1) == 0
  {
    DayInYear(z + 1, y + 1, z + 1, YearDays(y + 1));
  }

  lemma {:induction false} DayFollows(z: int)
    ensures Follows(YearOf(z), DayOf(z), YearOf(z + 1), DayOf(z + 1))
  {
    var y := YearOf(z);
    var start, length := Before(y), YearDays(y);
    YearIs(z);
    YearLength(y);
    if z + 1 < start + length { NextSame(z, y, start, length); } else { NextTurn(z, y); }
  }

  lemma {:induction false} MarchSuccessor(z: int)
    ensures MarchDate(z + 1) == NextDay(MarchDate(z)) && IsReal(MarchDate(z))
  {
    DayFollows(z);
    DateFollows(YearOf(z), DayOf(z), YearOf(z + 1), DayOf(z + 1));
  }

  /** Every day has a real date, and the next day has the next date of the Gregorian calendar. */
  lemma {:induction false} CivilSuccessor(days: int)
    ensures CivilFromDays(days + 1) == NextDay(CivilFromDays(days))
    ensures IsReal(CivilFromDays(days))
  {
    CivilIs(days);
    CivilIs(days + 1);
    MarchSuccessor(days + 719468);
  }

  lemma {:induction false} DayZero()
    ensures CivilFromDays(0) == Date(1970, 1, 1)
  {
  }

  lemma {:induction false} CivilNext(days: int, next: int)
    requires next == days + 1
    ensures CivilFromDays(next) == NextDay(CivilFromDays(days))
  {
    CivilSuccessor(days);
  }

  /** Day n of the epoch is the n-th day after the first of January 1970. */
  lemma {:induction false} CivilIsNth(n: nat)
    ensures CivilFromDays(n) == Nth(n)
  {
    DayZero();
    var i, x := 0, CivilFromDays(0);
    while i < n
      invariant 0 <= i <= n && x == CivilFromDays(i) == Nth(i)
    {
      CivilNext(i, i + 1);
      i, x := i + 1, NextDay(x);
    }
  }

  /** The year the validators compute is the year of that date. */
  lemma {:induction false} CurrentYearIs(secs: nat)
    ensures CurrentYear(secs) == Nth(secs / 86400).y
  {
    CivilIsNth(secs / 86400);
  }
}
