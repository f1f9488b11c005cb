/**
 * Arithmetic on GDateTime: the bit-fields `period`, `julian` and `usec`, the macros `ADD_DAYS` and `ADD_USEC`
 * that update them in place, difference and comparison, and the month adder.
 */
module DateTimes {
  import opened CInt
  import opened Calendar
  import opened Weeks

  const DAYS_PER_PERIOD := 2914695
  const USEC_PER_DAY := 86400000000
  const MAX_INT32 := 0x7fff_ffff
  const MAX_INT64 := 0x7fff_ffff_ffff_ffff

  /** The value of the bit-fields of a GDateTime. */
  datatype Stamp = Stamp(period: int, julian: int, usec: int)

  // Storing into a 3-bit signed, a 22-bit unsigned and a 37-bit unsigned field.
  function Period3(x: int): int { (x + 4) % 8 - 4 }
  function Julian22(x: int): int { x % 0x40_0000 }
  function Usec37(x: int): int { x % 0x20_0000_0000 }

  predicate InFields(s: Stamp) {
    -4 <= s.period <= 3 && 0 <= s.julian < 0x40_0000 && 0 <= s.usec < 0x20_0000_0000
  }

  /** `ADD_DAYS`, with the branch below day 1 as written: it adds to the period twice and leaves the day alone. */
  function AddDaysTo(s: Stamp, n: int): Stamp {
    var day := s.julian + n;
    if day < 1 then
      var period := Period3(s.period + (-1 + Div(day, DAYS_PER_PERIOD)));
      s.(period := Period3(period + (DAYS_PER_PERIOD + Mod(day, DAYS_PER_PERIOD))))
    else if day > DAYS_PER_PERIOD then
      Stamp(Period3(s.period + day / DAYS_PER_PERIOD), Julian22(day % DAYS_PER_PERIOD), s.usec)
    else
      s.(julian := Julian22(day))
  }

  /** The days `ADD_USEC` carries. */
  function CarriedDays(usec: int): int {
    Div(usec, USEC_PER_DAY) - if usec < 0 then 1 else 0
  }

  function UsecOfDay(usec: int): int {
    if usec < 0 then USEC_PER_DAY + Mod(usec, USEC_PER_DAY) else Mod(usec, USEC_PER_DAY)
  }

  function AddUsecTo(s: Stamp, n: int): Stamp {
    var usec := s.usec + n;
    var days := CarriedDays(usec);
    var t := if days != 0 then AddDaysTo(s, days) else s;
    t.(usec := Usec37(UsecOfDay(usec)))
  }

  /** `g_date_time_diff`: only within the first Julian period. */
  function Diff(begin: Stamp, end: Stamp): int {
    if begin.period != 0 || end.period != 0 then 0
    else (end.julian - begin.julian) * USEC_PER_DAY + (end.usec - begin.usec)
  }

  function Compare(a: Stamp, b: Stamp): int {
    if a.period == b.period && a.julian == b.julian && a.usec == b.usec then 0
    else if a.period > b.period
         || (a.period == b.period && a.julian > b.julian)
         || (a.period == b.period && a.julian == b.julian && a.usec > b.usec) then 1
    else -1
  }

  /** `g_date_time_new_from_date` gives NULL outside these ranges; it does not check the length of the month. */
  predicate Representable(d: Date) {
    -4712 < d.year <= 3268 && 1 <= d.month <= 12 && 1 <= d.day <= 31
  }

  class DateTime {
    var period: int
    var julian: int
    var usec: int

    function Value(): Stamp
      reads this
    {
      Stamp(period, julian, usec)
    }

    constructor (s: Stamp)
      ensures Value() == s
    {
      period, julian, usec := s.period, s.julian, s.usec;
    }

    method AddDays(n: int)
      requires InFields(Value()) && -MAX_INT32 <= n <= MAX_INT32 - julian
      modifies this
      ensures InFields(Value()) && Value() == AddDaysTo(old(Value()), n)
    {
      var day := julian + n;
      if day < 1 {
        period := Period3(period + (-1 + Div(day, DAYS_PER_PERIOD)));
        period := Period3(period + (DAYS_PER_PERIOD + Mod(day, DAYS_PER_PERIOD)));
      } else if day > DAYS_PER_PERIOD {
        period := Period3(period + (julian + n) / DAYS_PER_PERIOD);
        julian := Julian22((julian + n) % DAYS_PER_PERIOD);
      } else {
        julian := Julian22(julian + n);
      }
    }

    method AddUsec(n: int)
      requires InFields(Value()) && -MAX_INT64 - 1 <= n <= MAX_INT64 - usec
      modifies this
      ensures InFields(Value()) && Value() == AddUsecTo(old(Value()), n)
    {
      var sum := usec + n;
      var days := Div(sum, USEC_PER_DAY);
      CarrySmall(sum);
      if sum < 0 {
        days := days - 1;
      }
      if days != 0 {
        AddDays(days);
      }
      if sum < 0 {
        usec := Usec37(USEC_PER_DAY + Mod(sum, USEC_PER_DAY));
      } else {
        usec := Usec37(Mod(sum, USEC_PER_DAY));
      }
    }

    /** `g_date_time_add` works on a copy. */
    method Add(timespan: int) returns (dt: DateTime)
      requires InFields(Value()) && -MAX_INT64 - 1 <= timespan <= MAX_INT64 - usec
      ensures fresh(dt) && dt.Value() == AddUsecTo(Value(), timespan) && InFields(dt.Value())
    {
      dt := new DateTime(Value());
      dt.AddUsec(timespan);
    }

    /**
     * `g_date_time_add_months`: one month at a time, then the day is cut to the length of the month reached. When
     * `g_date_time_new_from_date` refuses the date, the code writes the time of day through the NULL it got: a fault.
     */
    method AddMonths(months: int) returns (dt: DateTime?, fault: bool)
      requires InFields(Value())
      ensures fault <==> months != 0 && !Representable(MonthsLater(GetDmy(julian), months))
      ensures dt == null <==> months == 0 || fault
      ensures dt != null ==> fresh(dt) && dt.Value() == Stamp(0, ToJulian(MonthsLater(GetDmy(julian), months)), usec)
    {
      if months == 0 {
        return null, false;
      }
      hide ToJulian, GetDmy, Leap, DaysInYear, DaysInMonth, GetWeekNumber, ScanFrom, Valid, MonthsLater;
      var date := GetDmy(julian);
      JulianOfDmy(julian);
      ValidMonth(date);
      var year, month := StepMonths(date.year, date.month, months);
      MonthsLaterAt(date, months, year, month);
      var day, warned := GetDayOfMonth(date);
      var length := DaysInMonth(Leap(year), month);
      if length < day {
        day := length;
      }
      var target := Date(year, month, day);
      if !Representable(target) {
        return null, true;
      }
      JulianFitsField(target);
      fault := false;
      dt := new DateTime(Stamp(0, ToJulian(target), usec));
    }
  }

  /** The loop of `g_date_time_add_months`, over either sign of `months`. */
  method StepMonths(year0: int, month0: int, months: int) returns (year: int, month: int)
    requires 1 <= month0 <= 12
    ensures 1 <= month <= 12 && 12 * year + month == 12 * year0 + month0 + months
  {
    year, month := year0, month0;
    var a := if months > 0 then 1 else -1;
    var count := if months > 0 then months else -months;
    var i := 0;
    while i < count
      invariant 0 <= i <= count
      invariant 1 <= month <= 12 && 12 * year + month == 12 * year0 + month0 + if months > 0 then i else -i
    {
      month := month + a;
      if month < 1 {
        year := year - 1;
        month := 12;
      } else if month > 12 {
        year := year + 1;
        month := 1;
      }
      i := i + 1;
    }
  }

  /** The day number of a representable date needs no truncation to its 22-bit field. */
  lemma JulianFitsField(d: Date)
    requires Representable(d)
    ensures 38 <= ToJulian(d) <= 2915038
  {
    hide ToJulian;
    JulianByMarch(d);
    YearStartGrows(MarchYear(d));
    YearStartAtMost(MarchYear(d));
  }

  lemma YearStartAtMost(y: nat)
    requires y <= 8068
    ensures YearStart(y) <= 2946777 && (y <= 8067 ==> YearStart(y) <= 2946411)
  {
  }

  /** The date `months` months away: floor arithmetic on the month count, the day cut to the month's length. */
  function MonthsLater(d: Date, months: int): Date {
    var index := 12 * d.year + d.month - 1 + months;
    var year, month := index / 12, index % 12 + 1;
    var day := ScanFrom(Leap(d.year), GetWeekNumber(d).dayOfYear, 1);
    var length := DaysInMonth(Leap(year), month);
    Date(year, month, if length < day then length else day)
  }

  lemma MonthsLaterAt(d: Date, months: int, year: int, month: int)
    requires 1 <= month <= 12 && 12 * year + month == 12 * d.year + d.month + months
    ensures MonthsLater(d, months) == var length := DaysInMonth(Leap(year), month);
      var day := ScanFrom(Leap(d.year), GetWeekNumber(d).dayOfYear, 1);
      Date(year, month, if length < day then length else day)
  {
    hide Leap, DaysInMonth, GetWeekNumber, ScanFrom;
    MonthIndex(12 * d.year + d.month - 1 + months, year, month);
  }

  lemma MonthIndex(index: int, year: int, month: int)
    requires 1 <= month <= 12 && 12 * year + month - 1 == index
    ensures index / 12 == year && index % 12 + 1 == month
  {
  }

  lemma CarrySmall(sum: int)
    requires -MAX_INT64 - 1 <= sum <= MAX_INT64
    ensures -106751993 <= CarriedDays(sum) <= 106751992
  {
  }

  // ---------------------------------------------------------------- conservation of time

  function Instant(s: Stamp): int {
    (s.period * DAYS_PER_PERIOD + s.julian) * USEC_PER_DAY + s.usec
  }

  /** The day number, before any carry into the period, that adding `n` microseconds reaches. */
  function DayReached(s: Stamp, n: int): int { s.julian + CarriedDays(s.usec + n) }

  lemma CarrySplits(usec: int)
    ensures usec == CarriedDays(usec) * USEC_PER_DAY + UsecOfDay(usec)
    ensures 0 <= UsecOfDay(usec) <= USEC_PER_DAY
    ensures UsecOfDay(usec) == USEC_PER_DAY <==> usec < 0 && usec % USEC_PER_DAY == 0
  {
    if usec < 0 {
      var q, r := (-usec) / USEC_PER_DAY, (-usec) % USEC_PER_DAY;
      ByDay(usec, if r == 0 then -q else -q - 1, if r == 0 then 0 else USEC_PER_DAY - r);
    }
  }

  lemma ByDay(x: int, q: int, r: int)
    requires x == USEC_PER_DAY * q + r && 0 <= r < USEC_PER_DAY
    ensures x / USEC_PER_DAY == q && x % USEC_PER_DAY == r
  {
  }

  lemma UsecFits(usec: int)
    requires 0 <= usec <= USEC_PER_DAY
    ensures Usec37(usec) == usec
  {
  }

  /** After `ADD_USEC` the time of day is in range, except for exactly one day after a negative multiple of a day. */
  lemma UsecCanonical(s: Stamp, n: int)
    ensures var usec := AddUsecTo(s, n).usec;
      && 0 <= usec <= USEC_PER_DAY
      && (usec == USEC_PER_DAY <==> s.usec + n < 0 && (s.usec + n) % USEC_PER_DAY == 0)
  {
    hide UsecOfDay, CarriedDays, AddDaysTo, Usec37;
    CarrySplits(s.usec + n);
    UsecFits(UsecOfDay(s.usec + n));
  }

  /** The days added by the two good branches of `ADD_DAYS`, and when the 3-bit period holds the carry. */
  lemma AddDaysExact(s: Stamp, n: int)
    requires InFields(s) && s.julian + n >= 1
    ensures var t := AddDaysTo(s, n); var day := s.julian + n;
      && t.usec == s.usec
      && ((t.period - s.period) * DAYS_PER_PERIOD + t.julian == day
          <==> day <= DAYS_PER_PERIOD || s.period + day / DAYS_PER_PERIOD <= 3)
  {
    var day := s.julian + n;
    if day > DAYS_PER_PERIOD {
      var k := day / DAYS_PER_PERIOD;
      FieldsOfCarry(s.period, k, day % DAYS_PER_PERIOD);
      hide Julian22, Period3;
      assert day == k * DAYS_PER_PERIOD + day % DAYS_PER_PERIOD;
    }
  }

  lemma FieldsOfCarry(period: int, k: int, julian: int)
    requires -4 <= period <= 3 && k >= 1 && 0 <= julian < DAYS_PER_PERIOD
    ensures Julian22(julian) == julian
    ensures Period3(period + k) == period + k <==> period + k <= 3
  {
  }

  /** Below day 1 the day field is left unchanged. */
  lemma AddDaysBelowOne(s: Stamp, n: int)
    requires s.julian + n < 1
    ensures AddDaysTo(s, n).julian == s.julian && AddDaysTo(s, n).usec == s.usec
  {
  }

  lemma InstantChange(s: Stamp, t: Stamp, n: int, days: int, usec: int)
    requires s.usec + n == days * USEC_PER_DAY + usec && t.usec == usec
    ensures Instant(t) == Instant(s) + n
       <==> (t.period - s.period) * DAYS_PER_PERIOD + t.julian - s.julian == days
  {
    var change := (t.period - s.period) * DAYS_PER_PERIOD + t.julian - s.julian;
    assert Instant(t) - Instant(s) - n == (change - days) * USEC_PER_DAY;
  }

  /** The periods that the branch below day 1 adds, before they are cut to 3 bits. */
  function PeriodsAdded(day: int): int { -1 + Div(day, DAYS_PER_PERIOD) + DAYS_PER_PERIOD + Mod(day, DAYS_PER_PERIOD) }

  /** Below day 1 the carry comes out right by luck: whole periods, which the 3 bits happen to hold. */
  predicate LuckyCarry(period: int, days: int, day: int) {
    && days % DAYS_PER_PERIOD == 0
    && (PeriodsAdded(day) - days / DAYS_PER_PERIOD) % 8 == 0
    && -4 <= period + days / DAYS_PER_PERIOD <= 3
  }

  lemma PeriodAddedTwice(period: int, a: int, b: int)
    ensures Period3(Period3(period + a) + b) == Period3(period + a + b)
  {
  }

  lemma PeriodReached(period: int, added: int, wanted: int)
    ensures Period3(period + added) == period + wanted <==> (added - wanted) % 8 == 0 && -4 <= period + wanted <= 3
  {
  }

  lemma WholePeriods(k: int, days: int)
    ensures k * DAYS_PER_PERIOD == days <==> days % DAYS_PER_PERIOD == 0 && k == days / DAYS_PER_PERIOD
  {
  }

  lemma BelowOneExact(s: Stamp, days: int)
    requires s.julian + days < 1
    ensures (AddDaysTo(s, days).period - s.period) * DAYS_PER_PERIOD == days
       <==> LuckyCarry(s.period, days, s.julian + days)
  {
    hide Div, Mod, Period3;
    var day := s.julian + days;
    PeriodAddedTwice(s.period, -1 + Div(day, DAYS_PER_PERIOD), DAYS_PER_PERIOD + Mod(day, DAYS_PER_PERIOD));
    WholePeriods(AddDaysTo(s, days).period - s.period, days);
    PeriodReached(s.period, PeriodsAdded(day), days / DAYS_PER_PERIOD);
  }

  /**
   * `ADD_USEC` moves the instant by exactly `n` if and only if no day is carried, or the day reached is at least 1 and
   * the 3-bit period can hold its carry, or by luck.
   */
  lemma AddUsecConserves(s: Stamp, n: int)
    requires InFields(s)
    ensures Instant(AddUsecTo(s, n)) == Instant(s) + n
       <==> || CarriedDays(s.usec + n) == 0
            || (DayReached(s, n) >= 1
                && (DayReached(s, n) <= DAYS_PER_PERIOD || s.period + DayReached(s, n) / DAYS_PER_PERIOD <= 3))
            || (DayReached(s, n) < 1 && LuckyCarry(s.period, CarriedDays(s.usec + n), DayReached(s, n)))
  {
    hide UsecOfDay, CarriedDays, AddDaysTo, Usec37, Instant, LuckyCarry;
    var sum := s.usec + n;
    var days := CarriedDays(sum);
    var t := AddUsecTo(s, n);
    CarrySplits(sum);
    UsecFits(UsecOfDay(sum));
    InstantChange(s, t, n, days, UsecOfDay(sum));
    if days != 0 {
      if s.julian + days >= 1 {
        AddDaysExact(s, days);
      } else {
        AddDaysBelowOne(s, days);
        BelowOneExact(s, days);
      }
    }
  }

  /** Ten days before day 5 of the first period is day 5 again, one period later. */
  lemma BelowDayOneIsWrong()
    ensures AddDaysTo(Stamp(0, 5, 0), -10) == Stamp(1, 5, 0)
  {
  }

  // ---------------------------------------------------------------- difference

  /** The difference is that of the instants if and only if both are in the first period, or are one instant. */
  lemma DiffExact(begin: Stamp, end: Stamp)
    ensures Diff(begin, end) == Instant(end) - Instant(begin)
       <==> (begin.period == 0 && end.period == 0) || Instant(begin) == Instant(end)
    ensures begin.period != 0 || end.period != 0 ==> Diff(begin, end) == 0
  {
    assert (end.julian - begin.julian) * USEC_PER_DAY == end.julian * USEC_PER_DAY - begin.julian * USEC_PER_DAY;
  }

  /** Difference undoes addition exactly when the day stays within its period. */
  lemma DiffOfAdd(a: Stamp, t: int)
    requires InFields(a) && a.period == 0 && a.usec < USEC_PER_DAY
    ensures Diff(a, AddUsecTo(a, t)) == t
       <==> CarriedDays(a.usec + t) == 0 || 1 <= DayReached(a, t) <= DAYS_PER_PERIOD
  {
    hide UsecOfDay, CarriedDays, Usec37;
    var sum := a.usec + t;
    var days := CarriedDays(sum);
    CarrySplits(sum);
    UsecFits(UsecOfDay(sum));
    if days != 0 && a.julian + days > DAYS_PER_PERIOD {
      CarryShrinks(a.julian + days);
    }
  }

  lemma CarryShrinks(day: int)
    requires day > DAYS_PER_PERIOD
    ensures Julian22(day % DAYS_PER_PERIOD) == day % DAYS_PER_PERIOD < day
  {
  }

  lemma DaysAhead(aj: int, bj: int, usec: int)
    requires 0 <= usec < USEC_PER_DAY
    ensures var sum := (bj - aj) * USEC_PER_DAY + usec;
      && CarriedDays(sum) == bj - aj - (if bj < aj && usec == 0 then 1 else 0)
      && UsecOfDay(sum) == if bj < aj && usec == 0 then USEC_PER_DAY else usec
  {
    var sum := (bj - aj) * USEC_PER_DAY + usec;
    ByDay(sum, bj - aj, usec);
    if sum < 0 {
      ByDay(-sum, if usec == 0 then aj - bj else aj - bj - 1, if usec == 0 then 0 else USEC_PER_DAY - usec);
    }
  }

  /** Going from day `from` back to a midnight: the carry then takes one day more, and leaves a time of a whole day. */
  predicate BackToMidnight(from: int, b: Stamp) { b.julian < from && b.usec == 0 }

  /**
   * Adding the difference of two dates of period 0 to the first one gives the second one back, if and only if they
   * share their day, or the second lies in days 1 to DAYS_PER_PERIOD and it is not gone back to its midnight. It gives
   * the same instant unless the carry ends below day 1. After going back to a midnight that instant comes out as the
   * previous day plus a whole day, which compares as earlier.
   */
  lemma AddOfDiff(a: Stamp, b: Stamp)
    requires InFields(a) && InFields(b) && a.period == b.period == 0 && a.usec < USEC_PER_DAY && b.usec < USEC_PER_DAY
    ensures var r := AddUsecTo(a, Diff(a, b));
      && (r == b <==> b.julian == a.julian || (1 <= b.julian <= DAYS_PER_PERIOD && !BackToMidnight(a.julian, b)))
      && (Instant(r) == Instant(b)
          <==> b.julian == a.julian || b.julian >= (if BackToMidnight(a.julian, b) then 2 else 1))
      && (BackToMidnight(a.julian, b) && 2 <= b.julian <= DAYS_PER_PERIOD + 1 ==>
            r == Stamp(0, b.julian - 1, USEC_PER_DAY) && Compare(r, b) == -1)
  {
    hide UsecOfDay, CarriedDays, Instant;
    var days := b.julian - a.julian - if BackToMidnight(a.julian, b) then 1 else 0;
    DaysAhead(a.julian, b.julian, b.usec);
    UsecFits(UsecOfDay(a.usec + Diff(a, b)));
    hide Usec37;
    DayFits(a.julian + days);
    InstantOfFirst(AddUsecTo(a, Diff(a, b)), b);
  }

  /** Days of the field carry at most one period. */
  lemma DayFits(day: int)
    requires day < 0x40_0000
    ensures day > DAYS_PER_PERIOD ==> day / DAYS_PER_PERIOD == 1 && day % DAYS_PER_PERIOD == day - DAYS_PER_PERIOD
    ensures Period3(1) == 1 && (0 <= day ==> Julian22(day) == day)
    ensures day > DAYS_PER_PERIOD ==> Julian22(day - DAYS_PER_PERIOD) == day - DAYS_PER_PERIOD
  {
  }

  lemma InstantOfFirst(r: Stamp, b: Stamp)
    ensures Instant(r) == Instant(b)
       <==> ((r.period - b.period) * DAYS_PER_PERIOD + r.julian - b.julian) * USEC_PER_DAY + r.usec - b.usec == 0
  {
  }

  function DayCount(s: Stamp): int { s.period * DAYS_PER_PERIOD + s.julian }

  /** `p` is later by `days` days and `usec` microseconds, of which the latter are fewer than in two days. */
  predicate Later(days: int, usec: int) {
    || days >= 2
    || (days == 1 && usec > -USEC_PER_DAY)
    || (days == 0 && usec > 0)
    || (days == -1 && usec > USEC_PER_DAY)
  }

  predicate FieldsTell(p: Stamp, q: Stamp) { Later(DayCount(p) - DayCount(q), p.usec - q.usec) }

  /**
   * For all fields: the comparison is the order of instants if and only if the greater fields belong to the later day,
   * or to a neighbouring one with times that make up for it.
   */
  lemma CompareExact(a: Stamp, b: Stamp)
    requires InFields(a) && InFields(b)
    ensures Compare(a, b) == (if Instant(a) < Instant(b) then -1 else if Instant(a) > Instant(b) then 1 else 0)
       <==> a == b || (if Compare(a, b) == 1 then FieldsTell(a, b) else FieldsTell(b, a))
  {
    InstantsTell(a, b);
    InstantsTell(b, a);
  }

  lemma InstantsTell(p: Stamp, q: Stamp)
    requires InFields(p) && InFields(q)
    ensures Instant(p) > Instant(q) <==> FieldsTell(p, q)
  {
    var days := DayCount(p) - DayCount(q);
    assert Instant(p) - Instant(q) == days * USEC_PER_DAY + (p.usec - q.usec);
  }

  /** One instant in two periods compares as earlier. */
  lemma CompareCanBeWrong()
    ensures var a, b := Stamp(0, 2914800, 0), Stamp(1, 105, 0);
      InFields(a) && InFields(b) && Instant(a) == Instant(b) && Compare(a, b) == -1
  {
  }

  /** The comparison is the order of instants while both days lie in 1 .. DAYS_PER_PERIOD and both times in the day. */
  lemma CompareIsOrder(a: Stamp, b: Stamp)
    requires 1 <= a.julian <= DAYS_PER_PERIOD && 1 <= b.julian <= DAYS_PER_PERIOD
    requires 0 <= a.usec < USEC_PER_DAY && 0 <= b.usec < USEC_PER_DAY
    ensures Compare(a, b) == if Instant(a) < Instant(b) then -1 else if Instant(a) > Instant(b) then 1 else 0
  {
    InstantsApart(a, b);
    InstantsApart(b, a);
  }

  lemma InstantsApart(a: Stamp, b: Stamp)
    requires 1 <= a.julian <= DAYS_PER_PERIOD && 1 <= b.julian <= DAYS_PER_PERIOD
    requires 0 <= a.usec < USEC_PER_DAY && 0 <= b.usec < USEC_PER_DAY
    ensures Compare(a, b) == 1 ==> Instant(a) > Instant(b)
  {
    var p, j, u := a.period - b.period, a.julian - b.julian, a.usec - b.usec;
    assert Instant(a) - Instant(b) == (p * DAYS_PER_PERIOD + j) * USEC_PER_DAY + u;
    if a.period > b.period {
      assert p * DAYS_PER_PERIOD + j >= 1;
    }
  }

  // ---------------------------------------------------------------- months

  /** From year 1 on, adding months gives a date of the calendar, on the old day or the last day of the month. */
  lemma MonthsLaterValid(d: Date, months: int)
    requires Valid(d) && d.year >= 1
    ensures var t := MonthsLater(d, months);
      && Valid(t)
      && 12 * t.year + t.month == 12 * d.year + d.month + months
      && t.day == (if d.day <= DaysInMonth(Leap(t.year), t.month) then d.day else DaysInMonth(Leap(t.year), t.month))
  {
    hide Leap, GetWeekNumber, ScanFrom;
    DayOfMonthExact(d);
  }

  /**
   * The date reached is refused exactly when its year is out of range, by the count of months; otherwise what is stored
   * fits its field and reads back as that date.
   */
  lemma AddMonthsReadsBack(d: Date, months: int)
    requires Valid(d) && d.year >= 1
    ensures var t := MonthsLater(d, months);
      && (Representable(t) <==> -4711 * 12 <= 12 * d.year + d.month - 1 + months < 3269 * 12)
      && (Representable(t) ==> ToJulian(t) >= 0 && Julian22(ToJulian(t)) == ToJulian(t) && GetDmy(ToJulian(t)) == t)
  {
    hide ToJulian, GetDmy, Leap, GetWeekNumber, ScanFrom, MonthsLater;
    var t := MonthsLater(d, months);
    MonthsLaterValid(d, months);
    if Representable(t) {
      JulianFitsField(t);
      DmyOfJulian(t);
    }
  }

  /** Going `months` forth and back is the identity exactly when the day was not cut. */
  lemma MonthsUndone(d: Date, months: int)
    requires Valid(d) && d.year >= 1 && 12 * d.year + d.month - 1 + months >= 12
    ensures var t := MonthsLater(d, months);
      MonthsLater(t, -months) == d <==> d.day <= DaysInMonth(Leap(t.year), t.month)
  {
    hide Leap, MonthsLater, DaysInMonth;
    var t := MonthsLater(d, months);
    MonthsLaterValid(d, months);
    MonthsLaterValid(t, -months);
    ValidMonth(MonthsLater(t, -months));
    ValidMonth(d);
  }
}
