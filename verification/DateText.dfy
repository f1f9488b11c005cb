/**
 * Texts that need not come from the printer: what the date parser accepts, and what the printer makes of the result.
 */
module DateTexts {
  import opened Calendar
  import opened Weeks
  import opened DateTimes
  import opened DateFormat
  import opened Options

  // ---------------------------------------------------------------- numbers in a text

  predicate AllDigits(s: string) { forall i | 0 <= i < |s| :: '0' <= s[i] <= '9' }
  predicate AllSpaces(s: string) { forall i | 0 <= i < |s| :: s[i] == ' ' || 9 as char <= s[i] <= 13 as char }

  /** The number that decimal digits spell. */
  function NumberOf(s: string): int {
    if s == "" then 0 else 10 * NumberOf(s[..|s| - 1]) + (s[|s| - 1] as int - '0' as int)
  }

  function PowerOfTen(n: nat): nat { if n == 0 then 1 else 10 * PowerOfTen(n - 1) }

  lemma {:induction false} NumberFromFront(s: string)
    requires s != ""
    ensures NumberOf(s) == (s[0] as int - '0' as int) * PowerOfTen(|s| - 1) + NumberOf(s[1..])
  {
    var n := |s| - 1;
    if n > 0 {
      NumberFromFront(s[..n]);
      assert s[..n][1..] == s[1..][..n - 1] && s[1..][n - 1] == s[n];
    }
  }

  lemma {:induction false} DigitsRead(digits: string, rest: string, acc: int)
    requires AllDigits(digits) && (rest == "" || !('0' <= rest[0] <= '9'))
    ensures AtoiDigits(digits + rest, acc) == acc * PowerOfTen(|digits|) + NumberOf(digits)
    decreases |digits|
  {
    var s := digits + rest;
    if digits == "" {
      assert s == rest;
    } else {
      var d := digits[0] as int - '0' as int;
      assert s[0] == digits[0] && s[1..] == digits[1..] + rest;
      DigitsRead(digits[1..], rest, 10 * acc + d);
      NumberFromFront(digits);
      TenTimes(acc, d, PowerOfTen(|digits| - 1));
    }
  }

  lemma TenTimes(acc: int, d: int, p: int)
    ensures (10 * acc + d) * p == acc * (10 * p) + d * p
  {
  }

  /** What the library's `atoi` makes of any text: white space, a sign, and the longest run of digits. */
  lemma {:induction false} AtoiMeans(spaces: string, sign: string, digits: string, rest: string)
    requires AllSpaces(spaces) && (sign == "" || sign == "-" || sign == "+") && AllDigits(digits)
    requires rest == "" || !('0' <= rest[0] <= '9')
    requires sign == "" && digits == "" && rest != "" ==>
      rest[0] != ' ' && !(9 as char <= rest[0] <= 13 as char) && rest[0] != '-' && rest[0] != '+'
    ensures Atoi(spaces + (sign + (digits + rest))) == if sign == "-" then -NumberOf(digits) else NumberOf(digits)
    decreases |spaces|
  {
    var number := digits + rest;
    var s := spaces + (sign + number);
    DigitsRead(digits, rest, 0);
    if spaces != "" {
      assert s[0] == spaces[0] && s[1..] == spaces[1..] + (sign + number);
      AtoiMeans(spaces[1..], sign, digits, rest);
    } else if sign != "" {
      assert s[0] == sign[0] && s[1..] == number;
    } else {
      assert s == number;
      assert digits != "" ==> s[0] == digits[0];
    }
  }

  /** What the printer writes for a number: its digits, with no zero in front. */
  lemma {:induction false} DecimalMeans(n: nat)
    ensures var s := Decimal(n);
      && s != "" && AllDigits(s) && NumberOf(s) == n && (s[0] == '0' <==> n == 0)
      && forall k | k >= 1 :: |s| <= k <==> n < PowerOfTen(k)
  {
    hide Digit;
    DigitRead(n % 10);
    if n < 10 {
      assert Decimal(n) == [Digit(n)] && [Digit(n)][..0] == "";
      forall k | k >= 1 ensures n < PowerOfTen(k) {
        PowersGrow(1, k);
        assert PowerOfTen(1) == 10 * PowerOfTen(0);
      }
    } else {
      DecimalMeans(n / 10);
      var front := Decimal(n / 10);
      assert Decimal(n) == front + [Digit(n % 10)];
      assert Decimal(n)[..|front|] == front;
      forall k | k >= 1 ensures |Decimal(n)| <= k <==> n < PowerOfTen(k) {
        if k == 1 {
          assert PowerOfTen(1) == 10 * PowerOfTen(0);
        } else {
          assert |front| <= k - 1 <==> n / 10 < PowerOfTen(k - 1);
        }
      }
    }
  }

  lemma {:induction false} PowersGrow(m: nat, n: nat)
    requires m <= n
    ensures 0 < PowerOfTen(m) <= PowerOfTen(n)
    decreases n
  {
    if m < n {
      PowersGrow(m, n - 1);
    } else if n > 0 {
      PowersGrow(m - 1, n - 1);
    }
  }

  /** Two digits for a number below 100. */
  function Two(n: nat): string
    requires n < 100
  {
    [Digit(n / 10), Digit(n % 10)]
  }

  function Four(n: nat): string
    requires n < 10000
  {
    [Digit(n / 1000), Digit(n / 100 % 10), Digit(n / 10 % 10), Digit(n % 10)]
  }

  /** The conversions "%02d" and "%d". */
  lemma PaddedMeans(n: int)
    ensures 0 <= n < 100 ==> Padded(n) == Two(n) && AllDigits(Two(n)) && NumberOf(Two(n)) == n
    ensures n >= 100 || n < 0 ==> Padded(n) == Plain(n)
    ensures n >= 0 ==> Plain(n) == Decimal(n)
    ensures n < 0 ==> Plain(n) == "-" + Decimal(-n)
  {
    if 0 <= n < 100 {
      DigitRead(n / 10);
      DigitRead(n % 10);
      var s := Two(n);
      assert s[..1] == [Digit(n / 10)] && s[..1][..0] == "";
      assert NumberOf(s[..1]) == n / 10;
      if n >= 10 {
        assert Decimal(n / 10) == [Digit(n / 10)];
      }
    }
  }

  lemma TwoRead(n: nat, tail: string)
    requires n < 100
    ensures |Two(n)| == 2 && HandleInt(Two(n) + tail, 2) == Some(n) && (Two(n) + tail)[2..] == tail
  {
    PaddedMeans(n);
    PaddedRead(n, tail);
  }

  lemma FourRead(n: nat, tail: string)
    requires n < 10000
    ensures |Four(n)| == 4 && HandleInt(Four(n) + tail, 4) == Some(n) && (Four(n) + tail)[4..] == tail
  {
    hide Digit;
    var a, b, c, d := n / 1000, n / 100 % 10, n / 10 % 10, n % 10;
    assert n / 10 / 10 == n / 100 && n / 100 / 10 == n / 1000;
    assert (Four(n) + tail)[..4] == Four(n);
    FourDigits(a, b, c, d);
  }

  /** The printer knows every specifier of the format. */
  predicate AllKnown(format: string, inMod: bool, other: char -> Option<string>) {
    format == ""
    || if inMod then (format[0] in "dHImMpPStyY%" || other(format[0]).Some?) && AllKnown(format[1..], false, other)
       else AllKnown(format[1..], format[0] == '%', other)
  }

  /** There is a text if and only if it does; a percent sign at the end of a format is no specifier. */
  lemma {:induction false} PrintsAllKnown(format: string, inMod: bool, s: Stamp, other: char -> Option<string>)
    requires s.julian >= 0
    ensures PrintFrom(format, inMod, s, other).Some? <==> AllKnown(format, inMod, other)
    ensures format == "" ==> PrintFrom(format, inMod, s, other) == Some("")
  {
    hide Day, Month, Year, Hour, Minute, Second, Padded, Plain;
    if format != "" {
      assert "dHImMpPStyY%" == ['d', 'H', 'I', 'm', 'M', 'p', 'P', 'S', 't', 'y', 'Y', '%'];
      PrintsAllKnown(format[1..], !inMod && format[0] == '%', s, other);
    }
  }

  // ---------------------------------------------------------------- what is accepted

  /** The hour of the day from the hour read and the half of the day. */
  function HourMeant(f: Fields): int {
    if f.hasAmPm && f.isPm && f.hour < 12 then f.hour + 12
    else if f.hasAmPm && !f.isPm && f.hour == 12 then 0
    else f.hour
  }

  predicate InCalendar(f: Fields) {
    && -4712 < f.year <= 3268 && 1 <= f.month <= 12 && 1 <= f.day <= 31
    && 0 <= f.hour <= 23 && 0 <= f.minute <= 59 && 0 <= f.second <= 60
  }

  /** The day meant: a day behind the end of its month counts into the next one. */
  function DateMeant(f: Fields): Date
    requires 1 <= f.month <= 12
  {
    var days := DaysInMonth(Leap(f.year), f.month);
    if f.day <= days then Date(f.year, f.month, f.day) else Date(f.year, f.month + 1, f.day - days)
  }

  /**
   * For any format and any text: there is a date if and only if the fields are read and all of them lie in their
   * ranges, with a second 60 allowed. It is the day and the time that the fields mean.
   */
  lemma ParsedExact(format: string, input: string)
    ensures var r, p := ParseFrom(format, false, input, DEFAULTS), ParseWith(format, input);
      && (p.Parsed? <==> r.Scanned? && InCalendar(r.fields))
      && (p.Parsed? ==>
            && p.value.period == 0 && p.value.julian >= 0 && GetDmy(p.value.julian) == DateMeant(r.fields)
            && p.value.usec == ((HourMeant(r.fields) * 60 + r.fields.minute) * 60 + r.fields.second) * 1000000)
  {
    hide ParseFrom, ToJulian, GetDmy;
    var r := ParseFrom(format, false, input, DEFAULTS);
    if r.Scanned? && InCalendar(r.fields) {
      DateOfAccepted(r.fields);
    }
  }

  lemma DateOfAccepted(f: Fields)
    requires InCalendar(f)
    ensures var j := ToJulian(Date(f.year, f.month, f.day)); j >= 0 && GetDmy(j) == DateMeant(f)
  {
    hide ToJulian, GetDmy, Leap;
    var d, days := Date(f.year, f.month, f.day), DaysInMonth(Leap(f.year), f.month);
    if f.day <= days {
      DmyOfJulian(d);
    } else {
      var last := Date(f.year, f.month, days);
      OverlongMonth(f.year, f.month, days, f.day - days);
      NextJulian(last);
      JulianByDay(last, f.day - days);
      JulianByDay(Next(last), f.day - days - 1);
      DmyOfJulian(DateMeant(f));
    }
  }

  lemma JulianByDay(d: Date, more: int)
    requires 1 <= d.month <= 12
    ensures ToJulian(d.(day := d.day + more)) == ToJulian(d) + more
  {
    hide ToJulian, YearStart, MonthStart;
    JulianByMarch(d);
    JulianByMarch(d.(day := d.day + more));
  }

  /** A month of fewer than 31 days, and the first days of the next. */
  lemma OverlongMonth(year: int, month: int, days: int, more: int)
    requires 1 <= month <= 12 && days == DaysInMonth(Leap(year), month) < days + more <= 31
    ensures 28 <= days && Valid(Date(year, month, days)) && Next(Date(year, month, days)) == Date(year, month + 1, 1)
    ensures Valid(Date(year, month + 1, more))
  {
    hide Leap;
  }

  /** A specifier that the parser does not know takes one character, whatever it is, and stores nothing. */
  lemma UnknownTakesOne(c: char, format: string, x: char, input: string, f: Fields)
    requires c !in "dHImMpPStyY%"
    ensures ParseFrom(['%', c] + format, false, [x] + input, f) == ParseFrom(format, false, input, f)
  {
    hide Store, HandleInt;
    var all := ['%', c] + format;
    assert all[0] == '%' && all[1..] == [c] + format && all[1..][0] == c && all[1..][1..] == format;
    assert ([x] + input)[1..] == input;
    assert "dHImMpPStyY%" == ['d', 'H', 'I', 'm', 'M', 'p', 'P', 'S', 't', 'y', 'Y', '%'];
    assert ParseSpecifier(c, [x] + input, f) == Scanned(f, input);
    hide ParseSpecifier;
    assert ParseFrom(all, false, [x] + input, f) == ParseFrom([c] + format, true, [x] + input, f);
  }

  // ---------------------------------------------------------------- texts of digits

  /** The numbers in a text, each with as many digits as its specifier takes, and the half of the day. */
  datatype Text = Text(year: nat, month: nat, day: nat, hour: nat, minute: nat, second: nat, pm: bool)

  predicate Fitting(v: Text) {
    v.year < 10000 && v.month < 100 && v.day < 100 && v.hour < 100 && v.minute < 100 && v.second < 100
  }

  /** What stands in the text for a specifier. */
  function Field(c: char, v: Text): string
    requires Fitting(v)
  {
    match c
    case 'd' => Two(v.day)
    case 'H' => Two(v.hour)
    case 'I' => Two(v.hour)
    case 'm' => Two(v.month)
    case 'M' => Two(v.minute)
    case 'S' => Two(v.second)
    case 'y' => Two(v.year % 100)
    case 'Y' => Four(v.year)
    case 'p' => if v.pm then "PM" else "AM"
    case 'P' => if v.pm then "pm" else "am"
    case 't' => "\t"
    case _ => "%"
  }

  function Written(format: string, inMod: bool, v: Text): string
    requires Fitting(v)
  {
    if format == "" then ""
    else if format[0] == '%' && !inMod then Written(format[1..], true, v)
    else (if inMod then Field(format[0], v) else [format[0]]) + Written(format[1..], false, v)
  }

  /** The years that two digits stand for: 1971 to 2070. */
  function ShortYear(y: nat): int { if y > 70 then 1900 + y else 2000 + y }

  /** What reading one specifier stores. */
  function Put(c: char, v: Text, f: Fields): Fields {
    match c
    case 'd' => f.(day := v.day)
    case 'H' => f.(hour := v.hour)
    case 'I' => f.(hour := v.hour)
    case 'm' => f.(month := v.month)
    case 'M' => f.(minute := v.minute)
    case 'S' => f.(second := v.second)
    case 'y' => f.(year := ShortYear(v.year % 100))
    case 'Y' => f.(year := v.year)
    case 'p' => f.(hasAmPm := true, isPm := v.pm)
    case 'P' => f.(hasAmPm := true, isPm := v.pm)
    case _ => f
  }

  function Kept(format: string, inMod: bool, v: Text, f: Fields): Fields {
    if format == "" then f
    else if inMod then Kept(format[1..], false, v, Put(format[0], v, f))
    else Kept(format[1..], format[0] == '%', v, f)
  }

  lemma FieldRead(c: char, v: Text, tail: string, f: Fields)
    requires IsShared(c) && Fitting(v)
    ensures Field(c, v) != "" && ParseSpecifier(c, Field(c, v) + tail, f) == Scanned(Put(c, v, f), tail)
  {
    hide Two, Four, HandleInt;
    if IsNumber(c) {
      NumberFieldRead(c, v, tail, f);
    } else {
      var t := Field(c, v);
      assert t <= t + tail && (t + tail)[|t|..] == tail && (t + tail)[0] == t[0];
    }
  }

  lemma NumberFieldRead(c: char, v: Text, tail: string, f: Fields)
    requires IsNumber(c) && Fitting(v)
    ensures Field(c, v) != "" && ParseSpecifier(c, Field(c, v) + tail, f) == Scanned(Put(c, v, f), tail)
  {
    hide Two, Four, HandleInt;
    match c
    case 'd' => TwoRead(v.day, tail);
    case 'H' => TwoRead(v.hour, tail);
    case 'I' => TwoRead(v.hour, tail);
    case 'm' => TwoRead(v.month, tail);
    case 'M' => TwoRead(v.minute, tail);
    case 'S' => TwoRead(v.second, tail);
    case 'y' => TwoRead(v.year % 100, tail);
    case 'Y' => FourRead(v.year, tail);
  }

  lemma {:induction false} WrittenRead(format: string, inMod: bool, v: Text, tail: string, f: Fields)
    requires SharedFormat(format, inMod) && Fitting(v)
    ensures ParseFrom(format, inMod, Written(format, inMod, v) + tail, f) == Scanned(Kept(format, inMod, v, f), tail)
  {
    hide ParseSpecifier, Field, Put, IsShared;
    if format == "" {
      assert "" + tail == tail;
    } else if inMod {
      var rest := Written(format[1..], false, v);
      WrittenRead(format[1..], false, v, tail, Put(format[0], v, f));
      FieldRead(format[0], v, rest + tail, f);
      assert (Field(format[0], v) + rest) + tail == Field(format[0], v) + (rest + tail);
    } else if format[0] == '%' {
      WrittenRead(format[1..], true, v, tail, f);
    } else {
      var rest := Written(format[1..], false, v);
      WrittenRead(format[1..], false, v, tail, f);
      var input := ([format[0]] + rest) + tail;
      assert input[0] == format[0] && input[1..] == rest + tail;
    }
  }

  /** The year is given at most once, by %Y or %y. */
  predicate OneYear(format: string, inMod: bool) { !(Uses(format, inMod, 'Y') && Uses(format, inMod, 'y')) }

  /** The hour is given at most once, by %H or %I. */
  predicate OneHour(format: string) { !(Uses(format, false, 'H') && Uses(format, false, 'I')) }

  lemma {:induction false} KeptDate(format: string, inMod: bool, v: Text, f: Fields)
    ensures var g := Kept(format, inMod, v, f);
      && g.day == (if Uses(format, inMod, 'd') then v.day else f.day)
      && g.month == (if Uses(format, inMod, 'm') then v.month else f.month)
      && (OneYear(format, inMod) ==>
            g.year == if Uses(format, inMod, 'Y') then v.year
                      else if Uses(format, inMod, 'y') then ShortYear(v.year % 100) else f.year)
  {
    hide ShortYear;
    if format != "" {
      var c := format[0];
      KeptDate(format[1..], !inMod && c == '%', v, if inMod then Put(c, v, f) else f);
    }
  }

  lemma {:induction false} KeptTime(format: string, inMod: bool, v: Text, f: Fields)
    ensures var g := Kept(format, inMod, v, f);
      && g.hour == (if Uses(format, inMod, 'H') || Uses(format, inMod, 'I') then v.hour else f.hour)
      && g.minute == (if Uses(format, inMod, 'M') then v.minute else f.minute)
      && g.second == (if Uses(format, inMod, 'S') then v.second else f.second)
  {
    hide ShortYear;
    if format != "" {
      var c := format[0];
      KeptTime(format[1..], !inMod && c == '%', v, if inMod then Put(c, v, f) else f);
    }
  }

  lemma {:induction false} KeptHalf(format: string, inMod: bool, v: Text, f: Fields)
    ensures var g := Kept(format, inMod, v, f);
      && var used := Uses(format, inMod, 'p') || Uses(format, inMod, 'P');
      && g.hasAmPm == (used || f.hasAmPm) && g.isPm == (if used then v.pm else f.isPm)
  {
    hide ShortYear;
    if format != "" {
      var c := format[0];
      KeptHalf(format[1..], !inMod && c == '%', v, if inMod then Put(c, v, f) else f);
    }
  }

  /** The numbers of the text, or the parser's defaults for what the format does not ask for. */
  function Given(format: string, v: Text): Fields {
    var half := Uses(format, false, 'p') || Uses(format, false, 'P');
    Fields(if Uses(format, false, 'Y') then v.year
           else if Uses(format, false, 'y') then ShortYear(v.year % 100) else 1,
           if Uses(format, false, 'm') then v.month else 1,
           if Uses(format, false, 'd') then v.day else 1,
           if Uses(format, false, 'H') || Uses(format, false, 'I') then v.hour else 0,
           if Uses(format, false, 'M') then v.minute else 0,
           if Uses(format, false, 'S') then v.second else 0,
           half, half && v.pm)
  }

  /** A text of digits parses if and only if every number in it lies in its range. */
  lemma DigitsParse(format: string, v: Text)
    requires SharedFormat(format, false) && Fitting(v) && OneYear(format, false)
    ensures var p := ParseWith(format, Written(format, false, v) + "\0");
      && (p.Parsed? <==> InCalendar(Given(format, v)))
      && (p.Parsed? ==>
            && p.value.julian >= 0 && GetDmy(p.value.julian) == DateMeant(Given(format, v))
            && p.value.usec == TimeMeant(Given(format, v)))
  {
    hide ParseFrom, ParseWith, Uses, Kept, Written, GetDmy, ShortYear, HourMeant, DateMeant, SharedFormat, InCalendar;
    WrittenRead(format, false, v, "\0", DEFAULTS);
    KeptDate(format, false, v, DEFAULTS);
    KeptTime(format, false, v, DEFAULTS);
    KeptHalf(format, false, v, DEFAULTS);
    ParsedExact(format, Written(format, false, v) + "\0");
  }

  function TimeMeant(f: Fields): int { ((HourMeant(f) * 60 + f.minute) * 60 + f.second) * 1000000 }

  // ---------------------------------------------------------------- parse, then print

  lemma {:induction false} ScanRange(leap: bool, dayOfYear: int, i: int)
    requires 1 <= i <= 13 && dayOfYear >= 0 && (i > 1 ==> dayOfYear > DaysInYear(leap, i - 1))
    ensures 0 <= ScanFrom(leap, dayOfYear, i) <= 31
    decreases 13 - i
  {
    if i <= 12 && DaysInYear(leap, i) < dayOfYear {
      ScanRange(leap, dayOfYear, i + 1);
    }
  }

  /** Whatever the year, the printer writes a day of at most two digits. */
  lemma DayRange(s: Stamp)
    requires s.julian >= 0
    ensures 0 <= Day(s) <= 31
  {
    hide GetDmy, GetWeekNumber, Leap, ScanFrom, ToJulian;
    var d := GetDmy(s.julian);
    JulianOfDmy(s.julian);
    OrdinalError(d);
    OrdinalPositive(d);
    ScanRange(Leap(d.year), GetWeekNumber(d).dayOfYear, 1);
  }

  lemma OrdinalPositive(d: Date)
    requires Valid(d)
    ensures DayOfYear(d) >= 1
  {
    hide Leap;
  }

  lemma TwoAgree(n: nat, m: nat)
    requires n < 100 && m < 100
    ensures |Padded(n)| == 2 && (Padded(n) == Two(m) <==> n == m)
  {
    hide Padded, Two;
    PaddedMeans(n);
    PaddedMeans(m);
    TwoRead(n, "");
    TwoRead(m, "");
  }

  lemma FourAgree(n: nat, m: nat)
    requires n < 10000 && m < 10000
    ensures |Plain(n)| <= 4 && (Plain(n) == Four(m) <==> n == m >= 1000)
  {
    FourRead(n, "");
    FourRead(m, "");
    DecimalMeans(n);
    PaddedMeans(n);
    Thousand();
    assert (|Decimal(n)| <= 3 <==> n < PowerOfTen(3)) && (|Decimal(n)| <= 4 <==> n < PowerOfTen(4));
    if n >= 1000 {
      FourDigitText(n);
    }
  }

  lemma Thousand()
    ensures PowerOfTen(3) == 1000 && PowerOfTen(4) == 10000
  {
    assert PowerOfTen(1) == 10 && PowerOfTen(2) == 100;
  }

  /** The printer would write for `s` what stands in the text. */
  predicate SameField(c: char, s: Stamp, v: Text)
    requires s.julian >= 0
  {
    match c
    case 'd' => Day(s) == v.day
    case 'H' => Hour(s) == v.hour
    case 'I' => TwelveHour(s) == v.hour
    case 'm' => Month(s) == v.month
    case 'M' => Minute(s) == v.minute
    case 'S' => Second(s) == v.second
    case 'y' => Year(s) % 100 == v.year % 100
    case 'Y' => Year(s) == v.year >= 1000
    case 'p' => (Hour(s) >= 12) == v.pm
    case 'P' => (Hour(s) >= 12) == v.pm
    case _ => true
  }

  /** A stamp whose fields the printer writes with as many digits as their places in the text have, or fewer. */
  predicate Narrow(s: Stamp) {
    && s.julian >= 0 && 0 <= Year(s) < 10000 && 1 <= Month(s) <= 12 && 0 <= Day(s) <= 31
    && 0 <= Hour(s) <= 24 && 0 <= Minute(s) < 60 && 0 <= Second(s) < 60
  }

  lemma SpecifierAgrees(c: char, s: Stamp, v: Text, other: char -> Option<string>)
    requires Narrow(s) && Fitting(v) && IsShared(c)
    ensures var t := Specifier(c, s, other);
      && t.Some? && |t.value| <= |Field(c, v)|
      && (t == Some(Field(c, v)) <==> SameField(c, s, v))
  {
    hide Day, Month, Year, Hour, Minute, Second, Padded, Plain, Two, Four;
    match c
    case 'd' => TwoAgree(Day(s), v.day); TwoRead(v.day, "");
    case 'H' => TwoAgree(Hour(s), v.hour); TwoRead(v.hour, "");
    case 'I' => TwoAgree(TwelveHour(s), v.hour); TwoRead(v.hour, ""); PaddedTwelve();
    case 'm' => TwoAgree(Month(s), v.month); TwoRead(v.month, "");
    case 'M' => TwoAgree(Minute(s), v.minute); TwoRead(v.minute, "");
    case 'S' => TwoAgree(Second(s), v.second); TwoRead(v.second, "");
    case 'y' => TwoAgree(Year(s) % 100, v.year % 100); TwoRead(v.year % 100, "");
    case 'Y' => FourAgree(Year(s), v.year); FourRead(v.year, "");
    case _ => PrefixesDiffer();
  }

  lemma PrefixesDiffer()
    ensures "AM" != "PM" && "am" != "pm"
  {
    assert "AM"[0] != "PM"[0] && "am"[0] != "pm"[0];
  }

  lemma {:induction false} PrintedNotLonger(format: string, inMod: bool, s: Stamp, v: Text,
                                            other: char -> Option<string>)
    requires SharedFormat(format, inMod) && s.julian >= 0 && Narrow(s) && Fitting(v)
    ensures var t := PrintFrom(format, inMod, s, other); t.Some? && |t.value| <= |Written(format, inMod, v)|
  {
    hide Narrow, Specifier, Field, IsShared, SameField;
    if format != "" {
      if inMod {
        SpecifierAgrees(format[0], s, v, other);
      }
      PrintedNotLonger(format[1..], !inMod && format[0] == '%', s, v, other);
    }
  }

  /** The printer writes the text again if and only if it does so for each specifier. */
  lemma {:induction false} PrintsText(format: string, inMod: bool, s: Stamp, v: Text, other: char -> Option<string>)
    requires SharedFormat(format, inMod) && s.julian >= 0 && Narrow(s) && Fitting(v)
    ensures PrintFrom(format, inMod, s, other) == Some(Written(format, inMod, v))
       <==> forall c | IsShared(c) && Uses(format, inMod, c) :: SameField(c, s, v)
  {
    hide Narrow, Specifier, Field, IsShared, SameField;
    if format != "" {
      var next := !inMod && format[0] == '%';
      PrintsText(format[1..], next, s, v, other);
      if !next {
        PrintedNotLonger(format[1..], false, s, v, other);
        var t, w := PrintFrom(format[1..], false, s, other).value, Written(format[1..], false, v);
        var head := if inMod then Field(format[0], v) else [format[0]];
        if inMod {
          SpecifierAgrees(format[0], s, v, other);
          SameParts(Specifier(format[0], s, other).value, t, head, w);
        } else {
          SameParts(head, t, head, w);
        }
      }
      forall c ensures Uses(format, inMod, c) <==> (inMod && format[0] == c) || Uses(format[1..], next, c) {
      }
    }
  }

  lemma SameParts(a: string, b: string, c: string, d: string)
    requires |a| <= |c| && |b| <= |d|
    ensures a + b == c + d <==> a == c && b == d
  {
    if a + b == c + d {
      assert |a| == |c|;
      assert (a + b)[..|a|] == a && (c + d)[..|c|] == c && (a + b)[|a|..] == b && (c + d)[|c|..] == d;
    }
  }

  /**
   * The numbers are those that the printer would choose: a year of four digits, a day that its month has, a second
   * below 60, and an hour in line with the half of the day. The printer's twelve-hour clock counts the hour after
   * midnight as 12 and the hour after noon as 0.
   */
  predicate PrintsBack(format: string, v: Text) {
    var f := Given(format, v);
    && (Uses(format, false, 'Y') ==> v.year >= 1000)
    && (1 <= f.month <= 12 ==> f.day <= DaysInMonth(Leap(f.year), f.month))
    && f.second <= 59
    && (if Uses(format, false, 'I') then
          if f.hasAmPm then (if v.pm then v.hour <= 11 else 1 <= v.hour <= 12) else 1 <= v.hour <= 11
        else Uses(format, false, 'H') && f.hasAmPm ==> (v.pm <==> v.hour >= 12))
  }

  lemma MeantClock(s: Stamp, f: Fields)
    requires InCalendar(f) && s.usec == TimeMeant(f)
    ensures f.second <= 59 ==> Hour(s) == HourMeant(f) && Minute(s) == f.minute && Second(s) == f.second
    ensures f.second == 60 ==> Second(s) == 0
    ensures 0 <= Hour(s) <= 24 && 0 <= Minute(s) < 60 && 0 <= Second(s) < 60
  {
    var h := HourMeant(f);
    assert 0 <= h <= 23;
    hide HourMeant;
    if f.second <= 59 {
      TimeBack(h, f.minute, f.second, s);
    } else {
      ByMinute(s.usec, 60 * h + f.minute + 1, 0);
      assert 0 <= s.usec <= USEC_PER_DAY;
    }
  }

  lemma MeantDay(s: Stamp, f: Fields)
    requires InCalendar(f) && s.julian >= 0 && GetDmy(s.julian) == DateMeant(f) && f.year >= 0
    ensures Year(s) == f.year && 1 <= Month(s) <= 12 && 0 <= Day(s) <= 31
    ensures f.day <= DaysInMonth(Leap(f.year), f.month) ==> Month(s) == f.month
    ensures f.year >= 1 ==> (Day(s) == f.day <==> f.day <= DaysInMonth(Leap(f.year), f.month))
  {
    hide GetDmy, GetWeekNumber, ScanFrom, ToJulian, Leap;
    DayRange(s);
    JulianOfDmy(s.julian);
    DayOfMonthExact(GetDmy(s.julian));
  }

  lemma SameFields(format: string, v: Text, s: Stamp)
    requires Fitting(v) && OneYear(format, false) && OneHour(format)
    requires InCalendar(Given(format, v)) && s.julian >= 0
    requires GetDmy(s.julian) == DateMeant(Given(format, v)) && s.usec == TimeMeant(Given(format, v))
    ensures Narrow(s)
    ensures (forall c | IsShared(c) && Uses(format, false, c) :: SameField(c, s, v)) <==> PrintsBack(format, v)
  {
    var f := Given(format, v);
    hide GetDmy, DateMeant, TimeMeant, Uses, Day, Month, Year, Hour, Minute, Second, Leap;
    MeantClock(s, f);
    MeantDay(s, f);
    if PrintsBack(format, v) {
      forall c | IsShared(c) && Uses(format, false, c) ensures SameField(c, s, v) {
      }
    } else if forall c | IsShared(c) && Uses(format, false, c) :: SameField(c, s, v) {
      SameInTurn(format, s, v);
    }
  }

  lemma SameInTurn(format: string, s: Stamp, v: Text)
    requires s.julian >= 0 && forall c | IsShared(c) && Uses(format, false, c) :: SameField(c, s, v)
    ensures Uses(format, false, 'Y') ==> SameField('Y', s, v)
    ensures Uses(format, false, 'd') ==> SameField('d', s, v)
    ensures Uses(format, false, 'S') ==> SameField('S', s, v)
    ensures Uses(format, false, 'H') ==> SameField('H', s, v)
    ensures Uses(format, false, 'I') ==> SameField('I', s, v)
    ensures Uses(format, false, 'p') ==> SameField('p', s, v)
    ensures Uses(format, false, 'P') ==> SameField('P', s, v)
  {
    hide SameField, Uses;
  }

  /**
   * Parse, then print: a text with as many digits for each number as its specifier takes parses, and the printer then
   * writes the same text again, if and only if every number lies in its range and is one that the printer would choose.
   */
  lemma ParseThenPrint(format: string, v: Text, other: char -> Option<string>)
    requires SharedFormat(format, false) && Fitting(v) && OneYear(format, false) && OneHour(format)
    ensures var text := Written(format, false, v);
      var p := ParseWith(format, text + "\0");
      && (p.Parsed? <==> InCalendar(Given(format, v)))
      && (p.Parsed? ==> p.value.julian >= 0
                        && (PrintFrom(format, false, p.value, other) == Some(text) <==> PrintsBack(format, v)))
  {
    hide ParseWith, Uses, Written, PrintFrom, GetDmy, DateMeant, TimeMeant, SharedFormat, InCalendar, PrintsBack,
      Narrow, SameField, IsShared, Given;
    DigitsParse(format, v);
    var p := ParseWith(format, Written(format, false, v) + "\0");
    if p.Parsed? {
      SameFields(format, v, p.value);
      PrintsText(format, false, p.value, v, other);
    }
  }
}
