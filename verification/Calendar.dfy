/**
 * The Gregorian conversions of GDateTime: `TO_JULIAN` and `g_date_time_get_dmy`, which compute the
 * Julian day number and its inverse in closed form, against the calendar told day by day.
 */
module Calendar {

  datatype Date = Date(year: int, month: int, day: int)

  /** `GREGORIAN_LEAP`; a C remainder is zero exactly when Dafny's is, whatever the sign. */
  predicate Leap(y: int) {
    y % 4 == 0 && !(y % 100 == 0 && y % 400 != 0)
  }

  /** The table `days_in_months`: row by leap year, column by month. */
  function DaysInMonth(leap: bool, m: int): int {
    if m == 2 then (if leap then 29 else 28)
    else if m == 4 || m == 6 || m == 9 || m == 11 then 30
    else 31
  }

  /** The table `days_in_year`: days up to the end of month `i`. */
  function DaysInYear(leap: bool, i: int): int {
    (if i <= 0 then 0 else if i == 1 then 31 else if i == 2 then 59 else if i == 3 then 90
     else if i == 4 then 120 else if i == 5 then 151 else if i == 6 then 181 else if i == 7 then 212
     else if i == 8 then 243 else if i == 9 then 273 else if i == 10 then 304 else if i == 11 then 334
     else 365) + if leap && i >= 2 then 1 else 0
  }

  predicate Valid(d: Date) {
    1 <= d.month <= 12 && 1 <= d.day <= DaysInMonth(Leap(d.year), d.month)
  }

  /** Days of a March-based year before its month `m`; March is 0. */
  function MonthStart(m: int): int { (153 * m + 2) / 5 }

  /** Days before the March-based year `y`. */
  function YearStart(y: int): int { 365 * y + y / 4 - y / 100 + y / 400 }

  /**
   * `TO_JULIAN`. Every caller has checked 1 <= month <= 12 and year > -4712, so that no dividend is negative
   * and C's quotients are Dafny's.
   */
  function ToJulian(d: Date): int {
    var a := (14 - d.month) / 12;
    var y := d.year + 4800 - a;
    var m := d.month + 12 * a - 3;
    d.day + (153 * m + 2) / 5 + y * 365 + y / 4 - y / 100 + y / 400 - 32045
  }

  // The quotients and products of `g_date_time_get_dmy`, one function each.
  function Century(a: nat): nat { (4 * a + 3) / 146097 }
  function CenturyDays(b: nat): int { b * 146097 / 4 }
  function YearOfCentury(c: int): int { (4 * c + 3) / 1461 }
  function YearDays(d: int): int { 1461 * d / 4 }
  function MonthOfYear(e: int): int { (5 * e + 2) / 153 }

  function GetDmy(julian: nat): Date {
    var a := julian + 32044;
    var b := Century(a);
    var c := a - CenturyDays(b);
    var d := YearOfCentury(c);
    var e := c - YearDays(d);
    var m := MonthOfYear(e);
    Date(b * 100 + d - 4800 + m / 10, m + 3 - 12 * (m / 10), e - MonthStart(m) + 1)
  }

  // ---------------------------------------------------------------- quotients by constants

  lemma By4(x: int, q: int, r: int)
    requires x == 4 * q + r && 0 <= r < 4
    ensures x / 4 == q && x % 4 == r
  {
  }

  lemma By100(x: int, q: int, r: int)
    requires x == 100 * q + r && 0 <= r < 100
    ensures x / 100 == q && x % 100 == r
  {
  }

  lemma By400(x: int, q: int, r: int)
    requires x == 400 * q + r && 0 <= r < 400
    ensures x / 400 == q && x % 400 == r
  {
  }

  lemma CenturyDaysSplit(b: nat)
    ensures CenturyDays(b) == 36524 * b + b / 4
  {
    By4(b * 146097, 36524 * b + b / 4, b % 4);
  }

  lemma YearDaysSplit(d: nat)
    ensures YearDays(d) == 365 * d + d / 4
  {
    By4(1461 * d, 365 * d + d / 4, d % 4);
  }

  /** Whether the year after the March-based year `100 * b + yc` is leap, by its century. */
  predicate LongYear(b: int, yc: int) {
    if yc == 99 then b % 4 == 3 else yc % 4 == 3
  }

  lemma LeapByCentury(b: int, yc: int)
    requires 0 <= yc < 100
    ensures Leap(100 * b + yc + 1 - 4800) <==> LongYear(b, yc)
  {
    var y := 100 * b + yc + 1 - 4800;
    var q, r := b / 4, b % 4;
    By4(y, 25 * b - 1200 + (yc + 1) / 4, (yc + 1) % 4);
    if yc == 99 {
      By100(y, b - 47, 0);
      if r == 3 {
        By400(y, q - 11, 0);
      } else {
        By400(y, q - 12, 100 * (r + 1));
      }
    } else {
      By100(y, b - 48, yc + 1);
    }
  }

  lemma YearStartByCentury(b: nat, yc: nat)
    requires yc < 100
    ensures YearStart(100 * b + yc) == CenturyDays(b) + YearDays(yc)
  {
    var y := 100 * b + yc;
    hide CenturyDays, YearDays;
    By4(y, 25 * b + yc / 4, yc % 4);
    By100(y, b, yc);
    By400(y, b / 4, 100 * (b % 4) + yc);
    CenturyDaysSplit(b);
    YearDaysSplit(yc);
  }

  // ---------------------------------------------------------------- from a date to its day and back

  function MarchYear(d: Date): int { if d.month <= 2 then d.year + 4799 else d.year + 4800 }
  function MarchMonth(d: Date): int { if d.month <= 2 then d.month + 9 else d.month - 3 }

  lemma JulianByMarch(d: Date)
    requires 1 <= d.month <= 12
    ensures ToJulian(d) + 32044 == YearStart(MarchYear(d)) + MonthStart(MarchMonth(d)) + d.day - 1
  {
    assert (14 - d.month) / 12 == if d.month <= 2 then 1 else 0;
  }

  lemma CenturyOfDays(b: nat, r: nat)
    requires r <= 36523 + if b % 4 == 3 then 1 else 0
    ensures Century(CenturyDays(b) + r) == b
  {
    hide CenturyDays;
    CenturyDaysSplit(b);
    assert 4 * (b / 4) == b - b % 4;
  }

  lemma YearOfDays(yc: nat, e: nat)
    requires e <= 364 + if yc % 4 == 3 then 1 else 0
    ensures YearOfCentury(YearDays(yc) + e) == yc
  {
    hide YearDays;
    YearDaysSplit(yc);
  }

  lemma YearDaysBound(b: int, yc: nat, e: nat)
    requires yc < 100 && e <= 364 + if LongYear(b, yc) then 1 else 0
    ensures e <= 364 + if yc % 4 == 3 then 1 else 0
    ensures 0 <= YearDays(yc) <= YearDays(yc) + e <= 36523 + if b % 4 == 3 then 1 else 0
  {
    hide YearDays;
    YearDaysSplit(yc);
  }

  /** The months of a March-based year are as long as the table says, February aside. */
  lemma MonthLength(leap: bool, month: int)
    requires 1 <= month <= 12
    ensures var m := if month <= 2 then month + 9 else month - 3;
      && 0 <= m <= 11 && month == m + 3 - 12 * (m / 10)
      && (if month == 2 then MonthStart(m) == 337 && DaysInMonth(leap, month) == 28 + (if leap then 1 else 0)
          else MonthStart(m + 1) == MonthStart(m) + DaysInMonth(leap, month))
      && 0 <= MonthStart(m) <= if month == 2 then 337 else 337 - DaysInMonth(leap, month)
  {
    assert [MonthStart(0), MonthStart(1), MonthStart(2), MonthStart(3), MonthStart(4), MonthStart(5), MonthStart(6)]
        == [0, 31, 61, 92, 122, 153, 184];
    assert [MonthStart(7), MonthStart(8), MonthStart(9), MonthStart(10), MonthStart(11)] == [214, 245, 275, 306, 337];
  }

  lemma MonthByStart(m: nat, e: int)
    requires m <= 11 && MonthStart(m) <= e && (if m == 11 then e <= 365 else e < MonthStart(m + 1))
    ensures MonthOfYear(e) == m
  {
  }

  /** Within a March-based year, the day of the year determines the month and the day, and back. */
  lemma DayOfMarchYear(d: Date)
    requires Valid(d)
    ensures var m := MarchMonth(d); var e := MonthStart(m) + d.day - 1;
      && 0 <= e <= 364 + (if Leap(d.year) && d.month <= 2 then 1 else 0)
      && MonthOfYear(e) == m
      && m + 3 - 12 * (m / 10) == d.month
      && MarchYear(d) + m / 10 == d.year + 4800
  {
    hide Leap, MonthStart, MonthOfYear, DaysInMonth;
    MonthLength(Leap(d.year), d.month);
    MonthByStart(MarchMonth(d), MonthStart(MarchMonth(d)) + d.day - 1);
  }

  lemma MonthOfMarchDay(e: nat)
    requires e <= 365
    ensures var m := MonthOfYear(e); 0 <= m <= 11 && MonthStart(m) <= e < MonthStart(m + 1)
  {
  }

  lemma DateOfMarchDay(y: int, e: nat)
    requires e <= 364 + if Leap(y + 1) then 1 else 0
    ensures var m := MonthOfYear(e); var d := Date(y + m / 10, m + 3 - 12 * (m / 10), e - MonthStart(m) + 1);
      Valid(d) && MarchMonth(d) == m && MarchYear(d) == y + 4800
  {
    hide Leap, MonthOfYear;
    MonthOfMarchDay(e);
  }

  lemma JulianNonNegative(d: Date)
    requires Valid(d) && d.year > -4713
    ensures ToJulian(d) >= 38
  {
    hide ToJulian, Leap;
    JulianByMarch(d);
    DayOfMarchYear(d);
    YearStartGrows(MarchYear(d));
  }

  lemma YearStartGrows(y: nat)
    ensures y >= 87 ==> YearStart(y) >= 31776
    ensures y >= 88 ==> YearStart(y) >= 32142
    ensures y < 87 ==> YearStart(y) <= 31411
  {
  }

  /** The conversion to a day number and back recovers every valid date of the supported years. */
  lemma DmyOfJulian(d: Date)
    requires Valid(d) && d.year > -4713
    ensures ToJulian(d) >= 0 && GetDmy(ToJulian(d)) == d
  {
    hide ToJulian, Leap, YearStart, Century, CenturyDays, YearOfCentury, YearDays, MonthOfYear, MonthStart, LongYear;
    JulianNonNegative(d);
    JulianByMarch(d);
    DayOfMarchYear(d);
    var y, m := MarchYear(d), MarchMonth(d);
    var b, yc, e := y / 100, y % 100, MonthStart(m) + d.day - 1;
    LeapByCentury(b, yc);
    YearStartByCentury(b, yc);
    YearDaysBound(b, yc, e);
    CenturyOfDays(b, YearDays(yc) + e);
    YearOfDays(yc, e);
  }

  lemma CenturyRemainder(a: nat)
    ensures var b := Century(a); 0 <= a - CenturyDays(b) <= 36523 + if b % 4 == 3 then 1 else 0
  {
    hide CenturyDays;
    var b := Century(a);
    CenturyDaysSplit(b);
    assert 4 * (b / 4) == b - b % 4;
  }

  lemma YearRemainder(b: nat, c: nat)
    requires c <= 36523 + if b % 4 == 3 then 1 else 0
    ensures var yc := YearOfCentury(c);
      0 <= yc < 100 && 0 <= c - YearDays(yc) <= 364 + if LongYear(b, yc) then 1 else 0
  {
    hide YearDays;
    var yc := YearOfCentury(c);
    YearDaysSplit(yc);
    assert 4 * (yc / 4) == yc - yc % 4;
  }

  /** Every day number is the day of the date computed from it. */
  lemma JulianOfDmy(j: nat)
    ensures Valid(GetDmy(j)) && GetDmy(j).year >= -4713 && ToJulian(GetDmy(j)) == j
  {
    hide ToJulian, Leap, YearStart, Century, CenturyDays, YearOfCentury, YearDays, MonthOfYear, MonthStart, LongYear,
      Valid;
    var a := j + 32044;
    var b := Century(a);
    CenturyRemainder(a);
    var c := a - CenturyDays(b);
    YearRemainder(b, c);
    var yc := YearOfCentury(c);
    var e := c - YearDays(yc);
    LeapByCentury(b, yc);
    YearStartByCentury(b, yc);
    YearStartGrows(100 * b + yc);
    DateOfMarchDay(100 * b + yc - 4800, e);
    ValidMonth(GetDmy(j));
    JulianByMarch(GetDmy(j));
  }

  lemma ValidMonth(d: Date)
    requires Valid(d)
    ensures 1 <= d.month <= 12
  {
  }

  // ---------------------------------------------------------------- the calendar's own order

  /** The day after `d`. */
  function Next(d: Date): Date {
    if d.day < DaysInMonth(Leap(d.year), d.month) then d.(day := d.day + 1)
    else if d.month < 12 then Date(d.year, d.month + 1, 1)
    else Date(d.year + 1, 1, 1)
  }

  predicate Before(p: Date, q: Date) {
    p.year < q.year || (p.year == q.year && (p.month < q.month || (p.month == q.month && p.day < q.day)))
  }

  /** The ordinal day, by the cumulative table. */
  function DayOfYear(d: Date): int { DaysInYear(Leap(d.year), d.month - 1) + d.day }

  function NewYear(y: int): int { ToJulian(Date(y, 1, 1)) }

  function YearLength(y: int): int { if Leap(y) then 366 else 365 }

  lemma Quotient4Step(y: int)
    ensures (y + 1) / 4 == y / 4 + if (y + 1) % 4 == 0 then 1 else 0
  {
  }

  lemma Quotient100Step(y: int)
    ensures (y + 1) / 100 == y / 100 + if (y + 1) % 100 == 0 then 1 else 0
  {
  }

  lemma Quotient400Step(y: int)
    ensures (y + 1) / 400 == y / 400 + if (y + 1) % 400 == 0 then 1 else 0
  {
  }

  lemma DividesChain(y: int)
    ensures y % 400 == 0 ==> y % 100 == 0
    ensures y % 100 == 0 ==> y % 4 == 0
  {
    if y % 400 == 0 {
      By100(y, 4 * (y / 400), 0);
    }
    if y % 100 == 0 {
      By4(y, 25 * (y / 100), 0);
    }
  }

  lemma LeapShift(y: int)
    ensures Leap(y - 4800) == Leap(y)
  {
    By4(y - 4800, y / 4 - 1200, y % 4);
    By100(y - 4800, y / 100 - 48, y % 100);
    By400(y - 4800, y / 400 - 12, y % 400);
  }

  lemma YearStartStep(y: int)
    ensures YearStart(y + 1) == YearStart(y) + if Leap(y + 1) then 366 else 365
  {
    Quotient4Step(y);
    Quotient100Step(y);
    Quotient400Step(y);
    DividesChain(y + 1);
  }

  lemma FirstOfMarch(y: int)
    ensures YearStart(y + 4800) == YearStart(y + 4799) + YearLength(y)
  {
    hide Leap, YearStart;
    YearStartStep(y + 4799);
    LeapShift(y + 4800);
  }

  lemma OrdinalByMarch(d: Date)
    requires Valid(d)
    ensures DayOfYear(d) == MonthStart(MarchMonth(d)) + d.day - 306 + if d.month <= 2 then 0 else YearLength(d.year)
    ensures 1 <= DayOfYear(d) <= YearLength(d.year)
  {
    hide Leap;
  }

  lemma NewYearByMarch(y: int)
    ensures NewYear(y) == YearStart(y + 4799) + 306 - 32044
  {
    hide ToJulian, YearStart;
    JulianByMarch(Date(y, 1, 1));
  }

  lemma JulianInYear(d: Date)
    requires Valid(d)
    ensures ToJulian(d) == NewYear(d.year) + DayOfYear(d) - 1
    ensures 1 <= DayOfYear(d) <= YearLength(d.year)
  {
    hide ToJulian, YearStart, MonthStart, Leap, DayOfYear, NewYear;
    JulianByMarch(d);
    NewYearByMarch(d.year);
    FirstOfMarch(d.year);
    OrdinalByMarch(d);
  }

  lemma NewYearStep(y: int)
    ensures NewYear(y + 1) == NewYear(y) + YearLength(y)
  {
    hide ToJulian, YearStart, Leap, NewYear;
    NewYearByMarch(y);
    NewYearByMarch(y + 1);
    FirstOfMarch(y);
  }

  lemma {:induction false} NewYearMonotone(y: int, z: int)
    requires y <= z
    ensures NewYear(y) <= NewYear(z)
    decreases z - y
  {
    hide ToJulian, NewYear, Leap;
    if y < z {
      NewYearMonotone(y, z - 1);
      NewYearStep(z - 1);
    }
  }

  lemma NextInYear(d: Date)
    requires Valid(d)
    ensures Valid(Next(d)) && Before(d, Next(d))
    ensures Next(d).year == d.year ==> DayOfYear(Next(d)) == DayOfYear(d) + 1
    ensures Next(d).year != d.year ==> DayOfYear(d) == YearLength(d.year) && Next(d) == Date(d.year + 1, 1, 1)
  {
    hide Leap;
  }

  /** The closed form counts days: the day after a date has the next number. */
  lemma NextJulian(d: Date)
    requires Valid(d)
    ensures Valid(Next(d)) && Before(d, Next(d)) && ToJulian(Next(d)) == ToJulian(d) + 1
  {
    hide ToJulian, Leap, DayOfYear, NewYear, YearLength, Next, Before, Valid;
    NextInYear(d);
    JulianInYear(d);
    JulianInYear(Next(d));
    NewYearStep(d.year);
    NextYear(d);
    NewYearOrdinal(d.year + 1);
  }

  lemma NextYear(d: Date)
    ensures Next(d).year == d.year || Next(d).year == d.year + 1
  {
  }

  lemma NewYearOrdinal(y: int)
    ensures DayOfYear(Date(y, 1, 1)) == 1
  {
  }

  /** The order of day numbers is the order of dates. */
  lemma JulianOrder(p: Date, q: Date)
    requires Valid(p) && Valid(q)
    ensures Before(p, q) <==> ToJulian(p) < ToJulian(q)
  {
    hide ToJulian, Leap;
    if Before(p, q) {
      JulianBefore(p, q);
    } else if Before(q, p) {
      JulianBefore(q, p);
    }
  }

  lemma OrdinalOrder(p: Date, q: Date)
    requires Valid(p) && Valid(q) && p.year == q.year && Before(p, q)
    ensures DayOfYear(p) < DayOfYear(q)
  {
    hide Leap;
  }

  lemma JulianBefore(p: Date, q: Date)
    requires Valid(p) && Valid(q) && Before(p, q)
    ensures ToJulian(p) < ToJulian(q)
  {
    hide ToJulian, Leap, DayOfYear, NewYear, YearLength, Valid;
    JulianInYear(p);
    JulianInYear(q);
    if p.year < q.year {
      NewYearStep(p.year);
      NewYearMonotone(p.year + 1, q.year);
    } else {
      OrdinalOrder(p, q);
    }
  }
}
