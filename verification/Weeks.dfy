/** C integer arithmetic: division and remainder truncate toward zero. */
module CInt {
  function Div(a: int, b: int): int
    requires b > 0
  {
    if a >= 0 then a / b else -((-a) / b)
  }

  function Mod(a: int, b: int): int
    requires b > 0
  {
    if a >= 0 then a % b else -((-a) % b)
  }
}

/**
 * Week number, weekday and ordinal day of GDateTime: `g_date_time_get_week_number`,
 * `g_date_time_get_day_of_week` and `g_date_time_get_day_of_month`.
 */
module Weeks {
  import opened CInt
  import opened Calendar

  datatype WeekInfo = WeekInfo(weekNumber: int, dayOfWeek: int, dayOfYear: int)

  function LeapDays(a: int): int { Div(a, 4) - Div(a, 100) + Div(a, 400) }

  /** The branch on the month: the locals `a`, `b`, `s`, `e` and `f`. */
  datatype Terms = Terms(a: int, b: int, s: int, e: int, f: int)

  function MonthTerms(date: Date): Terms {
    var a := if date.month <= 2 then date.year - 1 else date.year;
    var b := LeapDays(a);
    var c := LeapDays(a - 1);
    var s := b - c;
    if date.month <= 2
    then Terms(a, b, s, 0, date.day - 1 + 31 * (date.month - 1))
    else Terms(a, b, s, s + 1, date.day + (153 * (date.month - 3) + 2) / 5 + 58 + s)
  }

  function GetWeekNumber(date: Date): WeekInfo {
    var t := MonthTerms(date);
    var g := Mod(t.a + t.b, 7);
    var d := Mod(t.f + g - t.e, 7);
    var n := t.f + 3 - d;
    WeekInfo(if n < 0 then 53 - Div(g - t.s, 5)
             else if n > 364 + t.s then 1
             else Div(n, 7) + 1,
             d + 1, t.f + 1)
  }

  function GetDayOfWeek(date: Date): int {
    var a := (14 - date.month) / 12;
    var y := date.year - a;
    var m := date.month + 12 * a - 2;
    var dow := Mod(date.day + y + LeapDays(y) + 31 * m / 12, 7);
    if dow == 0 then 7 else dow
  }

  /** `g_date_time_get_day_of_month`: the first month whose cumulative days reach the ordinal day. */
  method GetDayOfMonth(date: Date) returns (day: int, warned: bool)
    requires Valid(date)
    ensures day == ScanFrom(Leap(date.year), GetWeekNumber(date).dayOfYear, 1)
    ensures warned <==> DaysInYear(Leap(date.year), 12) < GetWeekNumber(date).dayOfYear
  {
    var leap := Leap(date.year);
    var dayOfYear := GetWeekNumber(date).dayOfYear;
    var last, i := 0, 1;
    while i <= 12
      invariant 1 <= i <= 13 && last == DaysInYear(leap, i - 1)
      invariant i > 1 ==> last < dayOfYear
      invariant ScanFrom(leap, dayOfYear, 1) == ScanFrom(leap, dayOfYear, i)
    {
      if DaysInYear(leap, i) >= dayOfYear {
        CumulativeDaysGrow(leap, i);
        return dayOfYear - last, false;
      }
      last := DaysInYear(leap, i);
      i := i + 1;
    }
    return 0, true;
  }

  lemma CumulativeDaysGrow(leap: bool, i: int)
    requires 1 <= i <= 12
    ensures DaysInYear(leap, i) <= DaysInYear(leap, 12)
  {
  }

  function ScanFrom(leap: bool, dayOfYear: int, i: int): int
    decreases 13 - i
  {
    if i > 12 then 0
    else if DaysInYear(leap, i) >= dayOfYear then dayOfYear - DaysInYear(leap, i - 1)
    else ScanFrom(leap, dayOfYear, i + 1)
  }

  // ---------------------------------------------------------------- leap days, truncated and floored

  /** The leap-day count with floor quotients: the one that steps by one at each leap year. */
  function FloorLeapDays(a: int): int { a / 4 - a / 100 + a / 400 }

  lemma Negated4(k: int)
    ensures (-k) / 4 == -(k / 4) - (if k % 4 == 0 then 0 else 1) && ((-k) % 4 == 0 <==> k % 4 == 0)
  {
  }

  lemma Negated100(k: int)
    ensures (-k) / 100 == -(k / 100) - (if k % 100 == 0 then 0 else 1) && ((-k) % 100 == 0 <==> k % 100 == 0)
  {
  }

  lemma Negated400(k: int)
    ensures (-k) / 400 == -(k / 400) - (if k % 400 == 0 then 0 else 1) && ((-k) % 400 == 0 <==> k % 400 == 0)
  {
  }

  /** Truncation agrees with the floor except on negative common years, where it is one too many. */
  lemma TruncatedLeapDays(a: int)
    ensures LeapDays(a) == FloorLeapDays(a) + if a >= 0 || Leap(a) then 0 else 1
  {
    if a < 0 {
      Negated4(-a);
      Negated100(-a);
      Negated400(-a);
      DividesChain(a);
    }
  }

  lemma FloorLeapDaysStep(a: int)
    ensures FloorLeapDays(a) - FloorLeapDays(a - 1) == if Leap(a) then 1 else 0
  {
    Quotient4Step(a - 1);
    Quotient100Step(a - 1);
    Quotient400Step(a - 1);
    DividesChain(a);
  }

  lemma LeapYearsApart(a: int)
    ensures !(Leap(a) && Leap(a - 1))
  {
  }

  lemma LeapDaysStep(a: int)
    ensures LeapDays(a) - LeapDays(a - 1)
         == if a >= 1 then (if Leap(a) then 1 else 0) else if a < 0 && Leap(a - 1) then 1 else 0
  {
    hide Leap, LeapDays, FloorLeapDays;
    TruncatedLeapDays(a);
    TruncatedLeapDays(a - 1);
    FloorLeapDaysStep(a);
    LeapYearsApart(a);
    YearZero();
  }

  lemma YearZero()
    ensures Leap(0) && !Leap(-1) && LeapDays(0) == 0
  {
  }

  lemma LeapDaysNonNegative(a: nat)
    ensures LeapDays(a) >= 0
  {
  }

  // ---------------------------------------------------------------- ordinal day

  lemma OrdinalTerm(d: Date)
    requires Valid(d)
    ensures MonthTerms(d).f == DayOfYear(d) - 1
         + if d.month <= 2 then 0 else LeapDays(d.year) - LeapDays(d.year - 1) - (YearLength(d.year) - 365)
  {
    hide Leap, LeapDays, DayOfYear;
    OrdinalByMarch(d);
  }

  /** The ordinal day is right exactly from year 1 on, in January and February, and away from leap years. */
  lemma DayOfYearExact(d: Date)
    requires Valid(d)
    ensures GetWeekNumber(d).dayOfYear == DayOfYear(d)
       <==> d.year >= 1 || d.month <= 2 || (!Leap(d.year) && !Leap(d.year - 1))
  {
    hide Leap, LeapDays, MonthTerms, DayOfYear, Div, Mod, Valid;
    OrdinalTerm(d);
    LeapDaysStep(d.year);
    LeapYearsApart(d.year);
    YearZero();
  }

  lemma {:induction false} ScanFinds(leap: bool, month: int, day: int, i: int)
    requires 1 <= i <= month <= 12 && 1 <= day <= DaysInMonth(leap, month)
    ensures ScanFrom(leap, DaysInYear(leap, month - 1) + day, i) == day
    decreases month - i
  {
    if i < month {
      ScanFinds(leap, month, day, i + 1);
      CumulativeStep(leap, i, month - 1);
    }
  }

  lemma CumulativeStep(leap: bool, i: int, j: int)
    requires 1 <= i <= j <= 12
    ensures DaysInYear(leap, i) <= DaysInYear(leap, j)
  {
  }

  lemma OrdinalError(d: Date)
    requires Valid(d)
    ensures -1 <= GetWeekNumber(d).dayOfYear - DayOfYear(d) <= (if d.month <= 2 then 0 else 1)
  {
    hide Leap, LeapDays, MonthTerms, DayOfYear, Div, Mod, Valid;
    OrdinalTerm(d);
    LeapDaysStep(d.year);
  }

  /**
   * The scan returns the date's own day exactly when the ordinal day is right; a wrong ordinal day is off by one,
   * and then the scan lands on the neighbouring day or falls off the end of the table.
   */
  lemma DayOfMonthExact(d: Date)
    requires Valid(d)
    ensures ScanFrom(Leap(d.year), GetWeekNumber(d).dayOfYear, 1) == d.day
       <==> d.year >= 1 || d.month <= 2 || (!Leap(d.year) && !Leap(d.year - 1))
  {
    hide Leap, GetWeekNumber, ScanFrom, DaysInYear, DaysInMonth;
    DayOfYearExact(d);
    OrdinalError(d);
    ScanNeighbours(Leap(d.year), d.month, d.day);
  }

  lemma ScanNeighbours(leap: bool, month: int, day: int)
    requires 1 <= month <= 12 && 1 <= day <= DaysInMonth(leap, month)
    ensures var n := DaysInYear(leap, month - 1) + day;
      && ScanFrom(leap, n, 1) == day
      && ScanFrom(leap, n + 1, 1) != day
      && (month > 1 ==> ScanFrom(leap, n - 1, 1) != day)
  {
    hide ScanFrom, DaysInYear, DaysInMonth;
    ScanFinds(leap, month, day, 1);
    MonthEnds(leap, month);
    if day < DaysInMonth(leap, month) {
      ScanFinds(leap, month, day + 1, 1);
    } else if month < 12 {
      MonthEnds(leap, month + 1);
      ScanFinds(leap, month + 1, 1, 1);
    } else {
      ScanFallsOff(leap, DaysInYear(leap, 12) + 1, 1);
    }
    if day > 1 {
      ScanFinds(leap, month, day - 1, 1);
    } else if month > 1 {
      MonthEnds(leap, month - 1);
      ScanFinds(leap, month - 1, DaysInMonth(leap, month - 1), 1);
    }
  }

  lemma MonthEnds(leap: bool, month: int)
    requires 1 <= month <= 12
    ensures DaysInYear(leap, month) == DaysInYear(leap, month - 1) + DaysInMonth(leap, month)
    ensures DaysInMonth(leap, month) >= 28
  {
  }

  lemma {:induction false} ScanFallsOff(leap: bool, n: int, i: int)
    requires n > DaysInYear(leap, 12) && i >= 1
    ensures ScanFrom(leap, n, i) == 0
    decreases 13 - i
  {
    if i <= 12 {
      CumulativeStep(leap, i, 12);
      ScanFallsOff(leap, n, i + 1);
    }
  }

  // ---------------------------------------------------------------- weekday

  /** Monday is 0; Julian day 0 was a Monday. */
  function Weekday(julian: int): int { julian % 7 }

  /** The year, starting in March, that the weekday formula works on. */
  function FormulaYear(d: Date): int { MarchYear(d) - 4800 }

  function FormulaMonth(d: Date): int { 31 * (MarchMonth(d) + 1) / 12 }

  /** The sum whose remainder by 7 the weekday formula takes. */
  function FormulaSum(d: Date): int {
    d.day + FormulaYear(d) + LeapDays(FormulaYear(d)) + FormulaMonth(d)
  }

  lemma MonthsModSeven(m: nat)
    requires m <= 11
    ensures (MonthStart(m) - 31 * (m + 1) / 12 + 2) % 7 == 0
  {
    assert MonthStart(m) == [0, 31, 61, 92, 122, 153, 184, 214, 245, 275, 306, 337][m];
    assert 31 * (m + 1) / 12 == [2, 5, 7, 10, 12, 15, 18, 20, 23, 25, 28, 31][m];
  }

  lemma SevenTimes(x: int, y: int, k: int)
    requires x - y == 7 * k
    ensures x % 7 == y % 7
  {
  }

  lemma YearStartShift(y: int)
    ensures YearStart(y + 4800) == 365 * y + FloorLeapDays(y) + 1753164
  {
    By4(y + 4800, y / 4 + 1200, y % 4);
    By100(y + 4800, y / 100 + 48, y % 100);
    By400(y + 4800, y / 400 + 12, y % 400);
  }

  lemma SumModSeven(d: Date)
    requires 1 <= d.month <= 12
    ensures (ToJulian(d) + 1) % 7 == (d.day + FormulaYear(d) + FloorLeapDays(FormulaYear(d)) + FormulaMonth(d)) % 7
  {
    hide ToJulian, FloorLeapDays, YearStart, MonthStart;
    var y, m := FormulaYear(d), MarchMonth(d);
    JulianByMarch(d);
    YearStartShift(y);
    MonthsModSeven(m);
    var k := MonthStart(m) - FormulaMonth(d) + 2;
    SevenTimes(ToJulian(d) + 1, d.day + y + FloorLeapDays(y) + FormulaMonth(d), 52 * y + 245874 + k / 7);
  }

  lemma FormulaByMarch(d: Date)
    requires 1 <= d.month <= 12
    ensures GetDayOfWeek(d) == DayNumber(FormulaSum(d))
  {
    hide LeapDays, Mod;
    assert (14 - d.month) / 12 == if d.month <= 2 then 1 else 0;
  }

  function DayNumber(sum: int): int {
    var dow := Mod(sum, 7);
    if dow == 0 then 7 else dow
  }

  lemma DayNumberExact(sum: int, julian: int, excess: int)
    requires (julian + 1) % 7 == (sum - excess) % 7 && 0 <= excess <= 1
    ensures DayNumber(sum) == julian % 7 + 1 <==> excess == 0 && (sum >= 0 || sum % 7 == 0)
  {
    var q, r := (julian + 1) / 7, (julian + 1) % 7;
    By7(julian, if r == 0 then q - 1 else q, if r == 0 then 6 else r - 1);
    var p := (sum - excess) / 7;
    By7(sum, if r + excess == 7 then p + 1 else p, if r + excess == 7 then 0 else r + excess);
    if sum < 0 {
      By7(-sum, if sum % 7 == 0 then -(sum / 7) else -(sum / 7) - 1, if sum % 7 == 0 then 0 else 7 - sum % 7);
    }
  }

  lemma By7(x: int, q: int, r: int)
    requires x == 7 * q + r && 0 <= r < 7
    ensures x / 7 == q && x % 7 == r
  {
  }

  /**
   * The weekday formula is right for every date whose March-based year is not negative; before that it is right
   * exactly in leap years, while the sum is not negative or the day is a Sunday.
   */
  lemma DayOfWeekExact(d: Date)
    requires Valid(d)
    ensures GetDayOfWeek(d) == Weekday(ToJulian(d)) + 1
       <==> FormulaYear(d) >= 0 || (Leap(FormulaYear(d)) && (FormulaSum(d) >= 0 || FormulaSum(d) % 7 == 0))
  {
    hide Leap, LeapDays, FloorLeapDays, ToJulian, GetDayOfWeek, DayNumber, FormulaMonth;
    var y := FormulaYear(d);
    SumModSeven(d);
    TruncatedLeapDays(y);
    FormulaByMarch(d);
    if y >= 0 {
      LeapDaysNonNegative(y);
      FormulaMonthPositive(d);
    }
    DayNumberExact(FormulaSum(d), ToJulian(d), LeapDays(y) - FloorLeapDays(y));
  }

  lemma FormulaMonthPositive(d: Date)
    requires 1 <= d.month <= 12
    ensures FormulaMonth(d) >= 0
  {
  }

  // ---------------------------------------------------------------- ISO week

  /** ISO 8601: the week that holds the date's Thursday, counted in that Thursday's year. */
  function IsoWeek(julian: nat): int {
    var thursday := julian - Weekday(julian) + 3;
    var year := GetDmy(thursday).year;
    (thursday - NewYear(year)) / 7 + 1
  }

  /** The place in the date's year, from 0, of the Thursday of its week; it may lie outside the year. */
  function ThursdayOf(d: Date): int { DayOfYear(d) + 2 - Weekday(ToJulian(d)) }

  /** The week that holds the date's Thursday, counted in the Thursday's year. */
  function WeekByThursday(d: Date): int {
    var n := ThursdayOf(d);
    (if n < 0 then n + YearLength(d.year - 1)
     else if n >= YearLength(d.year) then n - YearLength(d.year) else n) / 7 + 1
  }

  lemma YearOfJulian(j: nat, y: int)
    requires NewYear(y) <= j < NewYear(y + 1)
    ensures GetDmy(j).year == y
  {
    hide ToJulian, GetDmy, NewYear, YearLength, DayOfYear, Leap;
    var d := GetDmy(j);
    JulianOfDmy(j);
    JulianInYear(d);
    NewYearStep(d.year);
    if d.year < y {
      NewYearMonotone(d.year + 1, y);
    } else if d.year > y {
      NewYearMonotone(y + 1, d.year);
    }
  }

  /** The weekday of 1 January; before year 1 the truncated leap-day count is one too many after a common year. */
  lemma NewYearWeekday(y: int)
    ensures Weekday(NewYear(y)) == (y - 1 + LeapDays(y - 1) - if y >= 1 || Leap(y - 1) then 0 else 1) % 7
  {
    hide ToJulian, NewYear, YearStart, LeapDays, FloorLeapDays, Leap;
    NewYearByMarch(y);
    YearStartShift(y - 1);
    TruncatedLeapDays(y - 1);
    SevenTimes(NewYear(y), y - 1 + FloorLeapDays(y - 1), 52 * (y - 1) + 245918);
  }

  /** From year 1 on the terms are the calendar's: ordinal day, leap day, and an offset to 1 January. */
  lemma TermsRight(d: Date)
    requires Valid(d) && d.year >= 1
    ensures var t := MonthTerms(d);
      && t.f == DayOfYear(d) - 1 && 0 <= t.e <= t.f
      && t.a + t.b >= 0 && t.a + t.b - t.e == d.year - 1 + LeapDays(d.year - 1)
      && (d.month > 2 ==> t.s == YearLength(d.year) - 365)
      && (d.month <= 2 && d.year > 1 ==> t.s == YearLength(d.year - 1) - 365)
      && (d.month <= 2 && d.year == 1 ==> t.s == 0 && t.a + t.b == 0)
      && (if d.month <= 2 then t.e == 0 && t.f < 60 else t.f >= 59)
  {
    hide Leap, LeapDays, DayOfYear;
    OrdinalTerm(d);
    LeapDaysStep(d.year);
    LeapDaysStep(d.year - 1);
    LeapDaysNonNegative(d.year - 1);
    YearZero();
    EarlyInYear(d);
  }

  lemma EarlyInYear(d: Date)
    requires Valid(d)
    ensures if d.month <= 2 then 1 <= DayOfYear(d) <= 60 else DayOfYear(d) >= 60 + YearLength(d.year) - 365
  {
    hide Leap;
  }

  lemma WeekdayFromParts(f: int, e: int, ab: int, newYear: int)
    requires (ab - e) % 7 == newYear % 7 && ab >= 0 && f >= e
    ensures Mod(f + Mod(ab, 7) - e, 7) == (newYear + f) % 7
  {
    SevenTimes(f + ab % 7 - e, f + ab - e, -(ab / 7));
    SevenTimes(newYear + f, ab - e + f, newYear / 7 - (ab - e) / 7);
  }

  lemma WeekdayPart(d: Date)
    requires Valid(d) && d.year >= 1
    ensures GetWeekNumber(d).dayOfWeek == Weekday(ToJulian(d)) + 1
  {
    hide ToJulian, Leap, LeapDays, MonthTerms, DayOfYear, NewYear, Mod, Div;
    var t := MonthTerms(d);
    TermsRight(d);
    JulianInYear(d);
    NewYearWeekday(d.year);
    WeekdayFromParts(t.f, t.e, t.a + t.b, NewYear(d.year));
  }

  /** What the three branches compute, for `g` the weekday of 1 January and `w` that of the date. */
  lemma WeekFromTerms(g: int, s: int, f: int, w: int, length: int, before: int, early: bool)
    requires 0 <= g < 7 && w == (g + f) % 7 && 0 <= f < length && 365 <= length <= 366 && 365 <= before <= 366
    requires if early then f < 60 && (s == before - 365 || (g == 0 && s == 0)) else f >= 59 && s == length - 365
    ensures var n := f + 3 - w;
      && (n < 0 ==> early && 53 - Div(g - s, 5) == (n + before) / 7 + 1)
      && (0 <= n < length ==> n <= 364 + s)
      && (n >= length ==> n > 364 + s && n < length + 7)
  {
  }

  /** The ISO week, by the year its Thursday falls in. */
  lemma IsoWeekByYear(d: Date)
    requires Valid(d) && ToJulian(d) >= 38
    ensures IsoWeek(ToJulian(d)) == WeekByThursday(d)
  {
    hide ToJulian, Leap, GetDmy, DayOfYear, NewYear;
    var j := ToJulian(d);
    var n := DayOfYear(d) - 1 + 3 - Weekday(j);
    var thursday := j - Weekday(j) + 3;
    JulianInYear(d);
    NewYearStep(d.year - 1);
    NewYearStep(d.year);
    NewYearStep(d.year + 1);
    if n < 0 {
      YearOfJulian(thursday, d.year - 1);
    } else if n >= YearLength(d.year) {
      YearOfJulian(thursday, d.year + 1);
    } else {
      YearOfJulian(thursday, d.year);
    }
  }

  lemma WeekByBranch(d: Date)
    requires Valid(d) && d.year >= 1
    ensures GetWeekNumber(d).weekNumber == WeekByThursday(d)
  {
    hide ToJulian, Leap, LeapDays, MonthTerms, DayOfYear, NewYear, Mod, Div;
    var t := MonthTerms(d);
    TermsRight(d);
    WeekdayPart(d);
    NewYearWeekday(d.year);
    JulianInYear(d);
    var g := Weekday(NewYear(d.year));
    SevenTimes(ToJulian(d), g + t.f, NewYear(d.year) / 7);
    WeekFromTerms(g, t.s, t.f, Weekday(ToJulian(d)), YearLength(d.year), YearLength(d.year - 1), d.month <= 2);
    DivOfNatural(t.f + 3 - Weekday(ToJulian(d)));
    if d.month <= 2 {
      ModOfNatural(t.a + t.b);
    }
  }

  lemma DivOfNatural(x: int)
    ensures x >= 0 ==> Div(x, 7) == x / 7
  {
  }

  lemma ModOfNatural(x: int)
    requires x >= 0
    ensures Mod(x, 7) == x % 7
  {
  }

  /**
   * For every date from year 1 on, the week number is the ISO 8601 one, the weekday counts from Monday,
   * and the ordinal day is the calendar's.
   */
  lemma WeekNumberIsIso(d: Date)
    requires Valid(d) && d.year >= 1
    ensures var j := ToJulian(d);
      j >= 0 && GetWeekNumber(d) == WeekInfo(IsoWeek(j), Weekday(j) + 1, DayOfYear(d))
  {
    hide ToJulian, Leap, GetWeekNumber, IsoWeek, DayOfYear, WeekByThursday, Weekday;
    JulianNonNegative(d);
    DayOfYearExact(d);
    WeekdayPart(d);
    IsoWeekByYear(d);
    WeekByBranch(d);
  }

  // ---------------------------------------------------------------- ISO week before year 1

  /** The place is a multiple of seven from 1 January just on Sundays. */
  predicate SevenJustOnSunday(thursday: int, weekday: int) { thursday % 7 == 0 <==> weekday == 6 }

  /** When the week number of a date before year 1 comes out right. */
  predicate WeekSurvives(d: Date) {
    var n, w := ThursdayOf(d), Weekday(ToJulian(d));
    if d.month <= 2 then
      (if Leap(d.year - 1) then n >= 3 else n == 0 || (n >= 4 && SevenJustOnSunday(n, w)))
    else if Leap(d.year) then n >= 366 || n % 7 != 0
    else if Leap(d.year - 1) then w != 6 && n != 365
    else n >= 366 || (n < 365 && SevenJustOnSunday(n, w))
  }

  /** The terms of a date before year 1: `early` in January and February, `shift` the excess of the weekday sum. */
  lemma TermsBeforeYearOne(d: Date)
    requires Valid(d) && d.year <= 0
    ensures var t := MonthTerms(d); var g := Weekday(NewYear(d.year)); var i := DayOfYear(d) - 1;
      if d.month <= 2 then
        && t.f == i && 0 <= i <= 59 && t.e == 0 && 0 <= t.s <= 1 && t.a + t.b < 0
        && (t.a + t.b - if Leap(d.year - 1) then 0 else 1) % 7 == g
      else
        && t.s == (if Leap(d.year - 1) then 1 else 0) && t.e == t.s + 1
        && t.f == i + (if Leap(d.year) then -1 else if Leap(d.year - 1) then 1 else 0) && t.f >= 58
        && (t.a + t.b - t.s - 1 - if Leap(d.year - 1) then 0 else 1) % 7 == g
  {
    hide Leap, LeapDays, DayOfYear, NewYear, Weekday;
    OrdinalTerm(d);
    LeapDaysStep(d.year);
    LeapDaysStep(d.year - 1);
    LeapYearsApart(d.year);
    LeapYearsApart(d.year - 1);
    LeapDaysNonPositive(d.year - 1);
    YearZero();
    NewYearWeekday(d.year);
    EarlyInYear(d);
  }

  lemma LeapDaysNonPositive(a: int)
    requires a < 0
    ensures LeapDays(a) <= 0
  {
  }

  /** The weekday that the terms give: one too many, unless the excess and the ordinal's error cancel. */
  lemma ShiftedWeekday(sum: int, weekday: int, shift: int)
    requires 0 <= weekday < 7 && 0 <= shift <= 1 && (sum - shift) % 7 == weekday
    ensures sum % 7 == if weekday + shift == 7 then 0 else weekday + shift
  {
    var q := (sum - shift) / 7;
    By7(sum, if weekday + shift == 7 then q + 1 else q, if weekday + shift == 7 then 0 else weekday + shift);
  }

  /** The week number from March on, by the date's weekday `w`, its place `i` in the year and the error `err` in it. */
  lemma LateWeek(i: int, w: int, s: int, err: int)
    requires 59 <= i <= 365 && 0 <= w < 7 && 0 <= s <= 1 && -1 <= err <= 1 && (err == -1 ==> s == 0)
    requires (err == 1) == (s == 1) && (i == 365 ==> err == -1)
    ensures var length := if err == -1 then 366 else 365;
      var n := i + 3 - w;
      var shifted := if err == -1 then w else if w == 6 then 0 else w + 1;
      var m := i + err + 3 - shifted;
      var week := (if n >= length then n - length else n) / 7 + 1;
      m >= 0 && ((if m > 364 + s then 1 else m / 7 + 1) == week
        <==> if err == -1 then n >= 366 || n % 7 != 0
             else if err == 1 then w != 6 && n != 365
             else n >= 366 || (n < 365 && SevenJustOnSunday(n, w)))
  {
  }

  /** The weekday computed in January and February, where the truncated remainder can be negative. */
  lemma EarlyWeekday(i: int, sum: int, q: int, r: int)
    requires i >= 0 && 0 <= sum < 7 && i + sum == 7 * q + r && 0 <= r < 7
    ensures Mod(i + (if sum == 0 then 0 else sum - 7), 7) == if sum != 0 && q == 0 then r - 7 else r
  {
    if sum == 0 {
      By7(i, q, r);
    } else if q > 0 {
      By7(i + sum - 7, q - 1, r);
    }
  }

  /** The week number in January and February, from the place `i`, in week `k` by Mondays, and the weekday `w`. */
  lemma EarlyWeek(i: int, g: int, shift: int, k: int, w: int)
    requires 0 <= i <= 59 && 0 <= g < 7 && 0 <= shift <= 1 && g + i == 7 * k + w && 0 <= w < 7
    ensures var sum := if g + shift == 7 then 0 else g + shift;
      var m := i + 3 - Mod(i + (if sum == 0 then 0 else sum - 7), 7);
      var n := i + 3 - w;
      var week := (if n < 0 then n + (if shift == 0 then 366 else 365) else n) / 7 + 1;
      0 <= m <= 364 && (m / 7 + 1 == week
        <==> if shift == 0 then n >= 3 else n == 0 || (n >= 4 && SevenJustOnSunday(n, w)))
  {
    hide Mod;
    var sum := if g + shift == 7 then 0 else g + shift;
    var v := w + shift - if g + shift == 7 then 7 else 0;
    if v < 0 {
      EarlyWeekday(i, sum, k - 1, v + 7);
    } else if v == 7 {
      EarlyWeekday(i, sum, k + 1, 0);
    } else {
      EarlyWeekday(i, sum, k, v);
    }
  }

  lemma NegativeMod(x: int)
    requires x < 0
    ensures Mod(x, 7) == if x % 7 == 0 then 0 else x % 7 - 7
  {
    By7(-x, if x % 7 == 0 then -(x / 7) else -(x / 7) - 1, if x % 7 == 0 then 0 else 7 - x % 7);
  }

  lemma LateWeekday(f: int, sum: int, e: int, weekday: int)
    requires f >= 58 && 1 <= e <= 2 && (f + sum - e) % 7 == weekday
    ensures Mod(f + Mod(sum, 7) - e, 7) == weekday
  {
    if sum < 0 {
      NegativeMod(sum);
    }
    var r := Mod(sum, 7);
    SevenTimes(f + sum - e, f + r - e, if sum >= 0 || sum % 7 == 0 then sum / 7 else sum / 7 + 1);
  }

  lemma EarlyBeforeYearOne(d: Date)
    requires Valid(d) && d.year <= 0 && d.month <= 2
    ensures GetWeekNumber(d).weekNumber == WeekByThursday(d) <==> WeekSurvives(d)
  {
    hide ToJulian, Leap, LeapDays, MonthTerms, DayOfYear, NewYear, Mod, SevenJustOnSunday;
    var t := MonthTerms(d);
    var g, i := Weekday(NewYear(d.year)), DayOfYear(d) - 1;
    var shift := if Leap(d.year - 1) then 0 else 1;
    TermsBeforeYearOne(d);
    JulianInYear(d);
    SevenTimes(ToJulian(d), g + i, NewYear(d.year) / 7);
    NegativeMod(t.a + t.b);
    ShiftedWeekday(t.a + t.b, g, shift);
    EarlyWeek(i, g, shift, (g + i) / 7, (g + i) % 7);
  }

  lemma LateBeforeYearOne(d: Date)
    requires Valid(d) && d.year <= 0 && d.month > 2
    ensures GetWeekNumber(d).weekNumber == WeekByThursday(d) <==> WeekSurvives(d)
  {
    hide ToJulian, Leap, LeapDays, MonthTerms, DayOfYear, NewYear, Mod, SevenJustOnSunday;
    var t := MonthTerms(d);
    var g, i := Weekday(NewYear(d.year)), DayOfYear(d) - 1;
    var shift := if Leap(d.year - 1) then 0 else 1;
    TermsBeforeYearOne(d);
    JulianInYear(d);
    LeapYearsApart(d.year);
    EarlyInYear(d);
    SevenTimes(ToJulian(d), g + i, NewYear(d.year) / 7);
    var err, w := t.f - i, Weekday(ToJulian(d));
    LateSum(t.f, t.a + t.b, t.e, i, g, w, shift);
    LateWeek(i, w, t.s, err);
  }

  lemma LateSum(f: int, ab: int, e: int, i: int, g: int, w: int, shift: int)
    requires f >= 58 && 1 <= e <= 2 && 0 <= shift <= 1 && 0 <= f - i + shift <= 1
    requires (ab - e - shift) % 7 == g && w == (g + i) % 7
    ensures Mod(f + Mod(ab, 7) - e, 7) == if f - i + shift == 0 then w else if w == 6 then 0 else w + 1
  {
    hide Mod;
    var total := f - i + shift;
    SevenTimes(f + ab - e - total, g + i, (ab - e - shift) / 7);
    ShiftedWeekday(f + ab - e, w, total);
    LateWeekday(f, ab, e, if w + total == 7 then 0 else w + total);
  }

  /** For every date of the supported years: the week number is the ISO 8601 one from year 1 on, and before as said. */
  lemma WeekNumberExact(d: Date)
    requires Valid(d) && d.year > -4713
    ensures ToJulian(d) >= 0
    ensures GetWeekNumber(d).weekNumber == IsoWeek(ToJulian(d)) <==> d.year >= 1 || WeekSurvives(d)
  {
    hide ToJulian, Leap, GetWeekNumber, IsoWeek, DayOfYear, WeekByThursday, Weekday, WeekSurvives;
    JulianNonNegative(d);
    IsoWeekByYear(d);
    if d.year >= 1 {
      WeekByBranch(d);
    } else if d.month <= 2 {
      EarlyBeforeYearOne(d);
    } else {
      LateBeforeYearOne(d);
    }
  }

  lemma EarlyWeekdayExact(d: Date)
    requires Valid(d) && d.year <= 0 && d.month <= 2
    ensures GetWeekNumber(d).dayOfWeek == Weekday(ToJulian(d)) + 1 <==> Leap(d.year - 1) && ThursdayOf(d) >= 3
  {
    hide ToJulian, Leap, LeapDays, MonthTerms, DayOfYear, NewYear, Mod, Div;
    var t := MonthTerms(d);
    var g, i := Weekday(NewYear(d.year)), DayOfYear(d) - 1;
    var shift := if Leap(d.year - 1) then 0 else 1;
    TermsBeforeYearOne(d);
    JulianInYear(d);
    SevenTimes(ToJulian(d), g + i, NewYear(d.year) / 7);
    NegativeMod(t.a + t.b);
    ShiftedWeekday(t.a + t.b, g, shift);
    var sum := if g + shift == 7 then 0 else g + shift;
    var k, w := (g + i) / 7, (g + i) % 7;
    var v := w + shift - if g + shift == 7 then 7 else 0;
    if v < 0 {
      EarlyWeekday(i, sum, k - 1, v + 7);
    } else if v == 7 {
      EarlyWeekday(i, sum, k + 1, 0);
    } else {
      EarlyWeekday(i, sum, k, v);
    }
  }

  lemma LateWeekdayExact(d: Date)
    requires Valid(d) && d.year <= 0 && d.month > 2
    ensures GetWeekNumber(d).dayOfWeek == Weekday(ToJulian(d)) + 1 <==> Leap(d.year)
  {
    hide ToJulian, Leap, LeapDays, MonthTerms, DayOfYear, NewYear, Mod, Div;
    var t := MonthTerms(d);
    var g, i := Weekday(NewYear(d.year)), DayOfYear(d) - 1;
    TermsBeforeYearOne(d);
    JulianInYear(d);
    LeapYearsApart(d.year);
    SevenTimes(ToJulian(d), g + i, NewYear(d.year) / 7);
    LateSum(t.f, t.a + t.b, t.e, i, g, Weekday(ToJulian(d)), if Leap(d.year - 1) then 0 else 1);
  }

  /**
   * For all valid dates: the weekday that comes with the week number is right from year 1 on; before, in leap years
   * from March on, and in January and February after a leap year if the week's Thursday is 4 January or later.
   */
  lemma WeekdayOfWeekExact(d: Date)
    requires Valid(d)
    ensures GetWeekNumber(d).dayOfWeek == Weekday(ToJulian(d)) + 1
       <==> d.year >= 1 || (if d.month <= 2 then Leap(d.year - 1) && ThursdayOf(d) >= 3 else Leap(d.year))
  {
    hide ToJulian, Leap, GetWeekNumber, ThursdayOf, Weekday;
    if d.year >= 1 {
      WeekdayPart(d);
    } else if d.month <= 2 {
      EarlyWeekdayExact(d);
    } else {
      LateWeekdayExact(d);
    }
  }

  /** In the middle of year -2 the week is one too small. */
  lemma WeekCanBeWrong()
    ensures GetWeekNumber(Date(-2, 6, 15)).weekNumber == 24
    ensures ToJulian(Date(-2, 6, 15)) == 1720495 && IsoWeek(1720495) == 25
  {
    hide ToJulian, IsoWeek, GetWeekNumber;
    MidYearDay();
    MidYearWeek();
    IsoWeekByYear(Date(-2, 6, 15));
  }

  lemma MidYearDay()
    ensures ToJulian(Date(-2, 6, 15)) == 1720495
  {
  }

  lemma MidYearWeek()
    ensures GetWeekNumber(Date(-2, 6, 15)).weekNumber == 24
  {
    assert MonthTerms(Date(-2, 6, 15)) == Terms(-2, 0, 0, 1, 165);
  }
}
