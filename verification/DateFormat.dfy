/**
 * `g_date_time_printf` and `g_date_time_parse_with_format`: a printer and a parser that walk the same format
 * character by character, with a flag for "the previous character was a percent sign".
 * Strings are ASCII; the parser's input is the C string with its terminating NUL.
 */
module DateFormat {
  import opened CInt
  import opened Calendar
  import opened Weeks
  import opened DateTimes
  import opened Options

  const USEC_PER_SECOND := 1000000
  const USEC_PER_MINUTE := 60000000
  const USEC_PER_HOUR := 3600000000

  // ---------------------------------------------------------------- the fields printed

  function Month(s: Stamp): int requires s.julian >= 0 { GetDmy(s.julian).month }
  function Year(s: Stamp): int requires s.julian >= 0 { GetDmy(s.julian).year }
  function Day(s: Stamp): int
    requires s.julian >= 0
  {
    var d := GetDmy(s.julian);
    ScanFrom(Leap(d.year), GetWeekNumber(d).dayOfYear, 1)
  }
  function Hour(s: Stamp): int { s.usec / USEC_PER_HOUR }
  function Minute(s: Stamp): int { s.usec % USEC_PER_HOUR / USEC_PER_MINUTE }
  function Second(s: Stamp): int { s.usec % USEC_PER_MINUTE / USEC_PER_SECOND }

  // ---------------------------------------------------------------- decimal text

  function Digit(n: int): char
    requires 0 <= n < 10
  {
    (48 + n) as char
  }

  function Decimal(n: nat): string {
    if n < 10 then [Digit(n)] else Decimal(n / 10) + [Digit(n % 10)]
  }

  /** The conversion "%d". */
  function Plain(n: int): string { if n < 0 then "-" + Decimal(-n) else Decimal(n) }

  /** The conversion "%02d". */
  function Padded(n: int): string { if 0 <= n < 10 then "0" + Decimal(n) else Plain(n) }

  predicate IsDigit(c: char) { '0' <= c <= '9' }
  predicate IsSpace(c: char) { c == ' ' || 9 as char <= c <= 13 as char }

  function AtoiDigits(s: string, acc: int): int {
    if s == "" || !IsDigit(s[0]) then acc
    else AtoiDigits(s[1..], 10 * acc + (s[0] as int - 48))
  }

  /** The library's `atoi`: white space, a sign, and the longest run of digits. */
  function Atoi(s: string): int {
    if s == "" then 0
    else if IsSpace(s[0]) then Atoi(s[1..])
    else if s[0] == '-' then -AtoiDigits(s[1..], 0)
    else if s[0] == '+' then AtoiDigits(s[1..], 0)
    else AtoiDigits(s, 0)
  }

  // ---------------------------------------------------------------- printing

  /** One specifier. `other` stands for the specifiers the parser does not share. */
  function Specifier(c: char, s: Stamp, other: char -> Option<string>): Option<string>
    requires s.julian >= 0
  {
    match c
    case 'd' => Some(Padded(Day(s)))
    case 'H' => Some(Padded(Hour(s)))
    case 'I' => Some(if Hour(s) == 0 then "12" else Padded(Hour(s) % 12))
    case 'm' => Some(Padded(Month(s)))
    case 'M' => Some(Padded(Minute(s)))
    case 'p' => Some(if Hour(s) < 12 then "AM" else "PM")
    case 'P' => Some(if Hour(s) < 12 then "am" else "pm")
    case 'S' => Some(Padded(Second(s)))
    case 't' => Some("\t")
    case 'y' => Some(Padded(Mod(Year(s), 100)))
    case 'Y' => Some(Plain(Year(s)))
    case '%' => Some("%")
    case _ => other(c)
  }

  function PrintFrom(format: string, inMod: bool, s: Stamp, other: char -> Option<string>): Option<string>
    requires s.julian >= 0
  {
    if format == "" then Some("")
    else if format[0] == '%' && !inMod then PrintFrom(format[1..], true, s, other)
    else
      var head := if inMod then Specifier(format[0], s, other) else Some([format[0]]);
      if head.None? then None else Prefixed(head.value, PrintFrom(format[1..], false, s, other))
  }

  function Prefixed(head: string, rest: Option<string>): Option<string> {
    if rest.None? then None else Some(head + rest.value)
  }

  lemma PrefixedTwice(a: string, b: string, rest: Option<string>)
    ensures Prefixed("", rest) == rest
    ensures Prefixed(a, Prefixed(b, rest)) == Prefixed(a + b, rest)
  {
    if rest.Some? {
      assert "" + rest.value == rest.value;
      assert a + (b + rest.value) == (a + b) + rest.value;
    }
  }

  /** `g_date_time_printf`; None is the NULL returned for an unknown specifier. */
  method Printf(s: Stamp, format: string, other: char -> Option<string>) returns (text: Option<string>)
    requires s.julian >= 0
    ensures text == PrintFrom(format, false, s, other)
  {
    hide Specifier;
    var outstr, inMod, i := "", false, 0;
    assert format[0..] == format;
    PrefixedTwice("", "", PrintFrom(format, false, s, other));
    while i < |format|
      invariant 0 <= i <= |format|
      invariant PrintFrom(format, false, s, other) == Prefixed(outstr, PrintFrom(format[i..], inMod, s, other))
    {
      var c := format[i];
      ghost var rest := PrintFrom(format[i + 1..], false, s, other);
      assert format[i..] != "" && format[i..][0] == c && format[i..][1..] == format[i + 1..];
      if c == '%' && !inMod {
        inMod := true;
      } else if inMod {
        var t := Specifier(c, s, other);
        if t.None? {
          return None;
        }
        PrefixedTwice(outstr, t.value, rest);
        outstr := outstr + t.value;
        inMod := false;
      } else {
        PrefixedTwice(outstr, [c], rest);
        outstr := outstr + [c];
      }
      i := i + 1;
    }
    assert outstr + "" == outstr;
    return Some(outstr);
  }

  // ---------------------------------------------------------------- parsing

  /** The locals of the parser. */
  datatype Fields = Fields(year: int, month: int, day: int, hour: int, minute: int, second: int,
                           hasAmPm: bool, isPm: bool)

  const DEFAULTS := Fields(1, 1, 1, 0, 0, 0, false, false)

  /** BadFormat and BadValue are the NULL results; PastEnd is a read behind the terminating NUL. */
  datatype Scan = Scanned(fields: Fields, input: string) | BadFormat | PastEnd

  datatype Parsed = Parsed(value: Stamp) | NoDate(why: Scan) | BadValue

  /** `HANDLE_INT`: exactly `w` bytes, through `atoi`. */
  function HandleInt(input: string, w: nat): Option<int> {
    if |input| < w then None else Some(Atoi(input[..w]))
  }

  function TwoDigitYear(y: int): int { if y > 70 then y + 1900 else y + 2000 }

  /** One specifier of the parser: the new locals and the rest of the input. */
  function ParseSpecifier(c: char, input: string, f: Fields): Scan {
    if c == 'p' || c == 'P' then
      var (pm, am) := if c == 'p' then ("PM", "AM") else ("pm", "am");
      if pm <= input then Scanned(f.(hasAmPm := true, isPm := true), input[2..])
      else if am <= input then Scanned(f.(hasAmPm := true, isPm := false), input[2..])
      else if input == "" then PastEnd
      else BadFormat
    else if c == '%' || c == 't' then
      if input == "" then PastEnd
      else if input[0] != (if c == '%' then '%' else '\t') then BadFormat
      else Scanned(f, input[1..])
    else if IsNumber(c) then
      var w := if c == 'Y' then 4 else 2;
      var n := HandleInt(input, w);
      if n.None? then PastEnd else Scanned(Store(c, n.value, f), input[w..])
    else
      Scanned(f, if input == "" then "" else input[1..])
  }

  /** The specifiers that read a number. */
  predicate IsNumber(c: char) {
    c == 'd' || c == 'H' || c == 'I' || c == 'M' || c == 'm' || c == 'S' || c == 'y' || c == 'Y'
  }

  function Store(c: char, n: int, f: Fields): Fields {
    match c
    case 'd' => f.(day := n)
    case 'H' => f.(hour := n)
    case 'I' => f.(hour := n)
    case 'M' => f.(minute := n)
    case 'm' => f.(month := n)
    case 'S' => f.(second := n)
    case 'y' => f.(year := TwoDigitYear(n))
    case 'Y' => f.(year := n)
    case _ => f
  }

  function ParseFrom(format: string, inMod: bool, input: string, f: Fields): Scan {
    if format == "" then Scanned(f, input)
    else if inMod then
      var r := ParseSpecifier(format[0], input, f);
      if r.Scanned? then ParseFrom(format[1..], false, r.input, r.fields) else r
    else if format[0] == '%' then ParseFrom(format[1..], true, input, f)
    else if input == "" then PastEnd
    else if format[0] != input[0] then BadFormat
    else ParseFrom(format[1..], false, input[1..], f)
  }

  function HourOfDay(f: Fields): int {
    if f.hasAmPm && !f.isPm && f.hour == 12 then 0
    else if f.hasAmPm && f.isPm && f.hour < 12 then f.hour + 12
    else f.hour
  }

  /** The range checks, the half of the day, and `g_date_time_new_full`. */
  function Conclude(f: Fields): Parsed {
    if f.month < 1 || f.month > 12 || f.day < 1 || f.day > 31 || f.hour < 0 || f.hour > 23
       || f.minute < 0 || f.minute > 59 || f.second < 0 || f.second > 60 then BadValue
    else if !Representable(Date(f.year, f.month, f.day)) then BadValue
    else Parsed(Stamp(0, ToJulian(Date(f.year, f.month, f.day)),
                      HourOfDay(f) * USEC_PER_HOUR + f.minute * USEC_PER_MINUTE + f.second * USEC_PER_SECOND))
  }

  function ParseWith(format: string, input: string): Parsed {
    var r := ParseFrom(format, false, input, DEFAULTS);
    if r.Scanned? then Conclude(r.fields) else NoDate(r)
  }

  /** `g_date_time_parse_with_format`, advancing through the input in step with the format. */
  method ParseWithFormat(format: string, text: string) returns (result: Parsed)
    ensures result == ParseWith(format, text)
  {
    hide ParseSpecifier, Conclude;
    var f, input, inMod, i := DEFAULTS, text, false, 0;
    while i < |format|
      invariant 0 <= i <= |format|
      invariant ParseFrom(format, false, text, DEFAULTS) == ParseFrom(format[i..], inMod, input, f)
    {
      var c := format[i];
      assert format[i..] != "" && format[i..][0] == c && format[i..][1..] == format[i + 1..];
      if !inMod {
        if c == '%' {
          inMod := true;
        } else {
          if input == "" {
            return NoDate(PastEnd);
          }
          if c != input[0] {
            return NoDate(BadFormat);
          }
          input := input[1..];
        }
      } else {
        var r := ParseSpecifier(c, input, f);
        if !r.Scanned? {
          return NoDate(r);
        }
        f, input := r.fields, r.input;
        inMod := false;
      }
      i := i + 1;
    }
    return Conclude(f);
  }

  // ---------------------------------------------------------------- numbers, printed and read back

  lemma DigitRead(n: int)
    requires 0 <= n < 10
    ensures IsDigit(Digit(n)) && Digit(n) as int - 48 == n
  {
  }

  lemma AtoiOfDigits(s: string)
    requires s != "" && IsDigit(s[0])
    ensures Atoi(s) == AtoiDigits(s, 0)
  {
  }

  lemma TwoDigits(a: int, b: int)
    requires 0 <= a < 10 && 0 <= b < 10
    ensures Atoi([Digit(a), Digit(b)]) == 10 * a + b
  {
    var s := [Digit(a), Digit(b)];
    DigitRead(a);
    DigitRead(b);
    hide Digit;
    AtoiOfDigits(s);
    assert s[1..] == [Digit(b)] && s[1..][1..] == "";
    assert AtoiDigits(s[1..], a) == 10 * a + b;
  }

  lemma FourDigits(a: int, b: int, c: int, d: int)
    requires 0 <= a < 10 && 0 <= b < 10 && 0 <= c < 10 && 0 <= d < 10
    ensures Atoi([Digit(a), Digit(b), Digit(c), Digit(d)]) == 1000 * a + 100 * b + 10 * c + d
  {
    var s := [Digit(a), Digit(b), Digit(c), Digit(d)];
    DigitRead(a);
    DigitRead(b);
    DigitRead(c);
    DigitRead(d);
    hide Digit;
    AtoiOfDigits(s);
    var t := [Digit(b), Digit(c), Digit(d)];
    var u := [Digit(c), Digit(d)];
    var v := [Digit(d)];
    assert s[1..] == t && t[1..] == u && u[1..] == v && v[1..] == "";
    assert AtoiDigits(s, 0) == AtoiDigits(t, a);
    assert AtoiDigits(t, a) == AtoiDigits(u, 10 * a + b);
    assert AtoiDigits(u, 10 * a + b) == AtoiDigits(v, 100 * a + 10 * b + c);
    assert AtoiDigits(v, 100 * a + 10 * b + c) == 10 * (100 * a + 10 * b + c) + d;
  }

  lemma PaddedRead(n: int, tail: string)
    requires 0 <= n < 100
    ensures HandleInt(Padded(n) + tail, 2) == Some(n) && (Padded(n) + tail)[2..] == tail
  {
    var a, b := n / 10, n % 10;
    assert Padded(n) == [Digit(a), Digit(b)] by {
      if n >= 10 {
        assert Decimal(n / 10) == [Digit(a)];
      }
    }
    hide Padded, Digit;
    assert (Padded(n) + tail)[..2] == Padded(n);
    TwoDigits(a, b);
  }

  lemma PlainRead(n: int, tail: string)
    requires 1000 <= n <= 9999
    ensures HandleInt(Plain(n) + tail, 4) == Some(n) && (Plain(n) + tail)[4..] == tail
  {
    var a, b, c, d := n / 1000, n / 100 % 10, n / 10 % 10, n % 10;
    FourDigitText(n);
    hide Plain, Digit;
    assert (Plain(n) + tail)[..4] == Plain(n);
    FourDigits(a, b, c, d);
  }

  lemma FourDigitText(n: int)
    requires 1000 <= n <= 9999
    ensures var a, b, c, d := n / 1000, n / 100 % 10, n / 10 % 10, n % 10;
      && 0 <= a < 10 && 1000 * a + 100 * b + 10 * c + d == n
      && Plain(n) == [Digit(a), Digit(b), Digit(c), Digit(d)]
  {
    hide Digit;
    assert n / 10 / 10 == n / 100 && n / 100 / 10 == n / 1000;
    assert Decimal(n / 1000) == [Digit(n / 1000)];
    assert Decimal(n / 100) == Decimal(n / 1000) + [Digit(n / 100 % 10)];
    assert Decimal(n / 10) == Decimal(n / 100) + [Digit(n / 10 % 10)];
    assert Decimal(n) == Decimal(n / 10) + [Digit(n % 10)];
  }

  // ---------------------------------------------------------------- print, then parse

  predicate IsShared(c: char) { IsNumber(c) || c == 'p' || c == 'P' || c == 't' || c == '%' }

  /** Literals and the specifiers that printer and parser share. */
  predicate SharedFormat(format: string, inMod: bool) {
    format == ""
    || if inMod then IsShared(format[0]) && SharedFormat(format[1..], false)
       else SharedFormat(format[1..], format[0] == '%')
  }

  predicate Uses(format: string, inMod: bool, c: char) {
    format != ""
    && if inMod then format[0] == c || Uses(format[1..], false, c)
       else Uses(format[1..], format[0] == '%', c)
  }

  /** Which of the specifiers `a` and `b` comes last. */
  function LastUse(format: string, inMod: bool, a: char, b: char): Option<char> {
    if format == "" then None
    else
      var rest := LastUse(format[1..], !inMod && format[0] == '%', a, b);
      if rest.Some? then rest
      else if inMod && (format[0] == a || format[0] == b) then Some(format[0])
      else None
  }

  predicate Canonical(s: Stamp) { 0 <= s.julian && 0 <= s.usec < USEC_PER_DAY }

  /** The year suits the specifier: four digits for %Y, and from year 1 on for the day and the short year. */
  predicate YearSuits(c: char, s: Stamp)
    requires s.julian >= 0
  {
    (c == 'd' || c == 'y' ==> Year(s) >= 1) && (c == 'Y' ==> 1000 <= Year(s) <= 9999)
  }

  predicate YearSuitsAll(format: string, inMod: bool, s: Stamp)
    requires s.julian >= 0
  {
    && (Uses(format, inMod, 'd') ==> YearSuits('d', s))
    && (Uses(format, inMod, 'y') ==> YearSuits('y', s))
    && (Uses(format, inMod, 'Y') ==> YearSuits('Y', s))
  }

  function TwelveHour(s: Stamp): int { if Hour(s) == 0 then 12 else Hour(s) % 12 }

  /** What reading back one printed specifier stores. */
  function Update(c: char, s: Stamp, f: Fields): Fields
    requires s.julian >= 0
  {
    match c
    case 'd' => f.(day := Day(s))
    case 'm' => f.(month := Month(s))
    case 'Y' => f.(year := Year(s))
    case 'y' => f.(year := TwoDigitYear(Year(s) % 100))
    case 'H' => f.(hour := Hour(s))
    case 'I' => f.(hour := TwelveHour(s))
    case 'M' => f.(minute := Minute(s))
    case 'S' => f.(second := Second(s))
    case 'p' => f.(hasAmPm := true, isPm := Hour(s) >= 12)
    case 'P' => f.(hasAmPm := true, isPm := Hour(s) >= 12)
    case _ => f
  }

  function After(format: string, inMod: bool, s: Stamp, f: Fields): Fields
    requires s.julian >= 0
  {
    if format == "" then f
    else if inMod then After(format[1..], false, s, Update(format[0], s, f))
    else After(format[1..], format[0] == '%', s, f)
  }

  lemma FieldRanges(s: Stamp)
    requires Canonical(s)
    ensures Valid(GetDmy(s.julian)) && 1 <= Month(s) <= 12
    ensures Year(s) >= 1 ==> Day(s) == GetDmy(s.julian).day && 1 <= Day(s) <= 31
    ensures 0 <= Hour(s) < 24 && 0 <= Minute(s) < 60 && 0 <= Second(s) < 60
    ensures Hour(s) * USEC_PER_HOUR + Minute(s) * USEC_PER_MINUTE + Second(s) * USEC_PER_SECOND
         == s.usec - s.usec % USEC_PER_SECOND
  {
    hide Leap, GetWeekNumber, ScanFrom, ToJulian, GetDmy;
    var d := GetDmy(s.julian);
    JulianOfDmy(s.julian);
    DayOfMonthExact(d);
    TimeOfDay(s);
  }

  lemma TimeOfDay(s: Stamp)
    requires 0 <= s.usec < USEC_PER_DAY
    ensures 0 <= Hour(s) < 24 && 0 <= Minute(s) < 60 && 0 <= Second(s) < 60
    ensures Hour(s) * USEC_PER_HOUR + Minute(s) * USEC_PER_MINUTE + Second(s) * USEC_PER_SECOND
         == s.usec - s.usec % USEC_PER_SECOND
  {
    var h, ofHour := s.usec / USEC_PER_HOUR, s.usec % USEC_PER_HOUR;
    var m, ofMinute := ofHour / USEC_PER_MINUTE, ofHour % USEC_PER_MINUTE;
    var sec, u := ofMinute / USEC_PER_SECOND, ofMinute % USEC_PER_SECOND;
    ByMinute(s.usec, 60 * h + m, ofMinute);
    BySecond(s.usec, 3600 * h + 60 * m + sec, u);
  }

  lemma ByMinute(x: int, q: int, r: int)
    requires x == USEC_PER_MINUTE * q + r && 0 <= r < USEC_PER_MINUTE
    ensures x % USEC_PER_MINUTE == r
  {
  }

  lemma BySecond(x: int, q: int, r: int)
    requires x == USEC_PER_SECOND * q + r && 0 <= r < USEC_PER_SECOND
    ensures x % USEC_PER_SECOND == r
  {
  }

  /** The number printed by a numeric specifier other than %Y. */
  function PrintedNumber(c: char, s: Stamp): int
    requires s.julian >= 0
  {
    match c
    case 'd' => Day(s)
    case 'm' => Month(s)
    case 'y' => Year(s) % 100
    case 'H' => Hour(s)
    case 'I' => TwelveHour(s)
    case 'M' => Minute(s)
    case _ => Second(s)
  }

  /** The numbers printed have two digits, and are what is stored on reading back. */
  lemma NumberInRange(c: char, s: Stamp)
    requires Canonical(s) && IsNumber(c) && c != 'Y' && YearSuits(c, s)
    ensures 0 <= PrintedNumber(c, s) < 100
    ensures forall f :: Store(c, PrintedNumber(c, s), f) == Update(c, s, f)
  {
    hide Day, Month, Year, Hour, Minute, Second, Valid, GetDmy;
    FieldRanges(s);
  }

  lemma NumberPrinted(c: char, s: Stamp, other: char -> Option<string>)
    requires Canonical(s) && IsNumber(c) && c != 'Y' && YearSuits(c, s)
    ensures Specifier(c, s, other) == Some(Padded(PrintedNumber(c, s)))
  {
    hide Day, Month, Year, Hour, Minute, Second, Padded;
    PaddedTwelve();
    if c == 'I' {
      TimeOfDay(s);
    }
  }

  lemma PaddedTwelve()
    ensures Padded(12) == "12"
  {
    assert Decimal(12) == Decimal(1) + [Digit(2)];
  }

  lemma NumberRead(c: char, s: Stamp, other: char -> Option<string>, tail: string, f: Fields)
    requires Canonical(s) && IsNumber(c) && YearSuits(c, s)
    ensures var t := Specifier(c, s, other);
      t.Some? && ParseSpecifier(c, t.value + tail, f) == Scanned(Update(c, s, f), tail)
  {
    hide Day, Month, Year, Hour, Minute, Second, Padded, Plain, HandleInt;
    if c == 'Y' {
      PlainRead(Year(s), tail);
    } else {
      NumberPrinted(c, s, other);
      NumberInRange(c, s);
      PaddedRead(PrintedNumber(c, s), tail);
      hide Specifier, PrintedNumber, Update, Store;
    }
  }

  lemma TextRead(c: char, s: Stamp, other: char -> Option<string>, tail: string, f: Fields)
    requires Canonical(s) && (c == 'p' || c == 'P' || c == 't' || c == '%')
    ensures var t := Specifier(c, s, other);
      t.Some? && ParseSpecifier(c, t.value + tail, f) == Scanned(Update(c, s, f), tail)
  {
    hide Day, Month, Year, Hour, Minute, Second, Padded, Plain, HandleInt;
    var t := Specifier(c, s, other).value;
    assert t <= t + tail && (t + tail)[|t|..] == tail && (t + tail)[0] == t[0];
  }

  lemma SpecifierRead(c: char, s: Stamp, other: char -> Option<string>, tail: string, f: Fields)
    requires Canonical(s) && IsShared(c) && YearSuits(c, s)
    ensures var t := Specifier(c, s, other);
      t.Some? && ParseSpecifier(c, t.value + tail, f) == Scanned(Update(c, s, f), tail)
  {
    hide Specifier, ParseSpecifier, Update, YearSuits;
    if IsNumber(c) {
      NumberRead(c, s, other, tail, f);
    } else {
      TextRead(c, s, other, tail, f);
    }
  }

  lemma SuitsFirst(c: char, s: Stamp)
    requires s.julian >= 0 && (c == 'd' || c == 'y' || c == 'Y' ==> YearSuits(c, s))
    ensures YearSuits(c, s)
  {
  }

  /** The parser reads back what the printer wrote, whatever follows it. */
  lemma {:induction false} ReadBack(format: string, inMod: bool, s: Stamp, other: char -> Option<string>,
                                    tail: string, f: Fields)
    requires Canonical(s) && SharedFormat(format, inMod) && YearSuitsAll(format, inMod, s)
    ensures var t := PrintFrom(format, inMod, s, other);
      t.Some? && ParseFrom(format, inMod, t.value + tail, f) == Scanned(After(format, inMod, s, f), tail)
  {
    hide Specifier, ParseSpecifier, Update, YearSuits;
    if format == "" {
      assert "" + tail == tail;
    } else if !inMod && format[0] == '%' {
      ReadBack(format[1..], true, s, other, tail, f);
    } else if inMod {
      var c := format[0];
      var rest := PrintFrom(format[1..], false, s, other);
      ReadBack(format[1..], false, s, other, tail, Update(c, s, f));
      SuitsFirst(c, s);
      SpecifierRead(c, s, other, rest.value + tail, f);
      var head := Specifier(c, s, other).value;
      assert (head + rest.value) + tail == head + (rest.value + tail);
    } else {
      ReadBack(format[1..], false, s, other, tail, f);
      var rest := PrintFrom(format[1..], false, s, other);
      var input := ([format[0]] + rest.value) + tail;
      assert input[0] == format[0] && input[1..] == rest.value + tail;
    }
  }

  /** After reading everything back, each local is the printed value of its last specifier, or as before. */
  lemma {:induction false} AfterDate(format: string, inMod: bool, s: Stamp, f: Fields)
    requires s.julian >= 0
    ensures var g := After(format, inMod, s, f);
      && g.day == (if Uses(format, inMod, 'd') then Day(s) else f.day)
      && g.month == (if Uses(format, inMod, 'm') then Month(s) else f.month)
  {
    hide Day, Month, Year, Hour, Minute, Second, TwelveHour, TwoDigitYear;
    if format != "" {
      var c := format[0];
      AfterDate(format[1..], !inMod && c == '%', s, if inMod then Update(c, s, f) else f);
    }
  }

  /** The same for minutes and seconds. */
  lemma {:induction false} AfterTime(format: string, inMod: bool, s: Stamp, f: Fields)
    requires s.julian >= 0
    ensures var g := After(format, inMod, s, f);
      && g.minute == (if Uses(format, inMod, 'M') then Minute(s) else f.minute)
      && g.second == (if Uses(format, inMod, 'S') then Second(s) else f.second)
  {
    hide Day, Month, Year, Hour, Minute, Second, TwelveHour, TwoDigitYear;
    if format != "" {
      var c := format[0];
      AfterTime(format[1..], !inMod && c == '%', s, if inMod then Update(c, s, f) else f);
    }
  }

  /** The same for the half of the day. */
  lemma {:induction false} AfterHalf(format: string, inMod: bool, s: Stamp, f: Fields)
    requires s.julian >= 0
    ensures var g := After(format, inMod, s, f);
      && var used := Uses(format, inMod, 'p') || Uses(format, inMod, 'P');
      && g.hasAmPm == (used || f.hasAmPm)
      && g.isPm == (if used then Hour(s) >= 12 else f.isPm)
  {
    hide Day, Month, Year, Hour, Minute, Second, TwelveHour, TwoDigitYear;
    if format != "" {
      var c := format[0];
      AfterHalf(format[1..], !inMod && c == '%', s, if inMod then Update(c, s, f) else f);
    }
  }

  /** The year comes from the last of %Y and %y. */
  lemma {:induction false} AfterYear(format: string, inMod: bool, s: Stamp, f: Fields)
    requires s.julian >= 0
    ensures var g := After(format, inMod, s, f);
      match LastUse(format, inMod, 'Y', 'y')
      case None => g.year == f.year
      case Some(c) => g.year == if c == 'Y' then Year(s) else TwoDigitYear(Year(s) % 100)
  {
    hide Day, Month, Year, Hour, Minute, Second, TwelveHour, TwoDigitYear;
    if format != "" {
      var c := format[0];
      AfterYear(format[1..], !inMod && c == '%', s, if inMod then Update(c, s, f) else f);
    }
  }

  /** The hour comes from the last of %H and %I. */
  lemma {:induction false} AfterHour(format: string, inMod: bool, s: Stamp, f: Fields)
    requires s.julian >= 0
    ensures var g := After(format, inMod, s, f);
      match LastUse(format, inMod, 'H', 'I')
      case None => g.hour == f.hour
      case Some(c) => g.hour == if c == 'H' then Hour(s) else TwelveHour(s)
  {
    hide Day, Month, Year, Hour, Minute, Second, TwelveHour, TwoDigitYear;
    if format != "" {
      var c := format[0];
      AfterHour(format[1..], !inMod && c == '%', s, if inMod then Update(c, s, f) else f);
    }
  }

  // ---------------------------------------------------------------- the round trip

  function YearBack(format: string, s: Stamp): int
    requires s.julian >= 0
  {
    match LastUse(format, false, 'Y', 'y')
    case None => 1
    case Some(c) => if c == 'Y' then Year(s) else TwoDigitYear(Year(s) % 100)
  }

  /** Two digits bring back exactly the years 1971 to 2070. */
  lemma TwoDigitYearExact(year: int)
    requires year >= 1
    ensures TwoDigitYear(year % 100) == year <==> 1971 <= year <= 2070
  {
  }

  function HourBack(format: string, s: Stamp): int {
    var half := Uses(format, false, 'p') || Uses(format, false, 'P');
    match LastUse(format, false, 'H', 'I')
    case None => if half && Hour(s) >= 12 then 12 else 0
    case Some(c) => if c == 'H' || half then Hour(s) else TwelveHour(s)
  }

  /** Without %p or %P, %I brings back exactly the hours 1 to 11. */
  lemma HourBackExact(format: string, s: Stamp)
    requires 0 <= Hour(s) < 24 && LastUse(format, false, 'H', 'I').Some?
    ensures HourBack(format, s) == Hour(s)
       <==> || LastUse(format, false, 'H', 'I') == Some('H')
            || Uses(format, false, 'p') || Uses(format, false, 'P')
            || 1 <= Hour(s) <= 11
  {
    hide Uses, Hour;
    LastUseIsOne(format, false, 'H', 'I');
  }

  lemma LastUseIsOne(format: string, inMod: bool, a: char, b: char)
    ensures match LastUse(format, inMod, a, b)
            case None => true
            case Some(c) => c == a || c == b
  {
  }

  /** The day is missing from the year that comes back: 29 February, printed without its year. */
  predicate LosesLeapDay(format: string, s: Stamp)
    requires s.julian >= 0
  {
    Uses(format, false, 'd') && Uses(format, false, 'm') && Day(s) == 29 && Month(s) == 2
    && !Leap(YearBack(format, s))
  }

  function DateBack(format: string, s: Stamp): Date
    requires s.julian >= 0
  {
    Date(YearBack(format, s),
         if Uses(format, false, 'm') then Month(s) else 1,
         if Uses(format, false, 'd') then Day(s) else 1)
  }

  function UsecBack(format: string, s: Stamp): int {
    HourBack(format, s) * USEC_PER_HOUR
    + (if Uses(format, false, 'M') then Minute(s) else 0) * USEC_PER_MINUTE
    + (if Uses(format, false, 'S') then Second(s) else 0) * USEC_PER_SECOND
  }

  lemma {:induction false} LastUseUses(format: string, inMod: bool, a: char, b: char)
    ensures LastUse(format, inMod, a, b) == Some(a) ==> Uses(format, inMod, a)
  {
    if format != "" {
      LastUseUses(format[1..], !inMod && format[0] == '%', a, b);
    }
  }

  /** The parser's locals at the end of a round trip. */
  function Carried(format: string, s: Stamp): Fields
    requires s.julian >= 0
  {
    var half := Uses(format, false, 'p') || Uses(format, false, 'P');
    var hour := match LastUse(format, false, 'H', 'I')
                case None => 0
                case Some(c) => if c == 'H' then Hour(s) else TwelveHour(s);
    var date := DateBack(format, s);
    Fields(date.year, date.month, date.day, hour,
           if Uses(format, false, 'M') then Minute(s) else 0,
           if Uses(format, false, 'S') then Second(s) else 0,
           half, half && Hour(s) >= 12)
  }

  lemma AfterIsCarried(format: string, s: Stamp)
    requires s.julian >= 0
    ensures After(format, false, s, DEFAULTS) == Carried(format, s)
  {
    hide After, Uses, LastUse, Day, Month, Year, Hour, Minute, Second, TwelveHour, TwoDigitYear;
    AfterDate(format, false, s, DEFAULTS);
    AfterTime(format, false, s, DEFAULTS);
    AfterHalf(format, false, s, DEFAULTS);
    AfterYear(format, false, s, DEFAULTS);
    AfterHour(format, false, s, DEFAULTS);
  }

  lemma YearBackRange(format: string, s: Stamp)
    requires Canonical(s) && YearSuitsAll(format, false, s)
    ensures 1 <= YearBack(format, s) <= 9999
  {
    hide Uses, LastUse, Year;
    LastUseIsOne(format, false, 'Y', 'y');
    LastUseUses(format, false, 'Y', 'y');
  }

  lemma CarriedHour(format: string, s: Stamp)
    requires s.julian >= 0 && 0 <= Hour(s) < 24
    ensures var f := Carried(format, s); 0 <= f.hour <= 23 && HourOfDay(f) == HourBack(format, s)
  {
    hide Uses, LastUse, Day, Month, Year, Hour, Minute, Second, DateBack;
    LastUseIsOne(format, false, 'H', 'I');
  }

  /**
   * Print, then parse: for every format of literals and shared specifiers that suits the year, the text parses if and
   * only if the year that comes back is supported, and then to the date and time made of the carried fields and the
   * parser's defaults.
   */
  lemma PrintThenParse(format: string, s: Stamp, other: char -> Option<string>)
    requires Canonical(s) && SharedFormat(format, false) && YearSuitsAll(format, false, s)
    ensures var t := PrintFrom(format, false, s, other);
      t.Some? && ParseWith(format, t.value + "\0")
              == if YearBack(format, s) <= 3268
                 then Parsed(Stamp(0, ToJulian(DateBack(format, s)), UsecBack(format, s)))
                 else BadValue
  {
    hide ToJulian, After, PrintFrom, ParseFrom, Uses, LastUse, SharedFormat, Day, Month, Year, Hour, Minute, Second,
      YearBack, HourBack, HourOfDay, Valid;
    ReadBack(format, false, s, other, "\0", DEFAULTS);
    AfterIsCarried(format, s);
    FieldRanges(s);
    YearBackRange(format, s);
    CarriedHour(format, s);
  }

  // ---------------------------------------------------------------- years of fewer than four digits

  /** Nothing is printed and nothing read: the end of a format, or a lone percent sign there. */
  predicate Silent(format: string, inMod: bool) { format == "" || (!inMod && format == "%") }

  /** The format uses %Y once, and nothing is printed after it. */
  predicate EndsInYear(format: string, inMod: bool) {
    format != ""
    && if inMod then if format[0] == 'Y' then Silent(format[1..], false) else EndsInYear(format[1..], false)
       else EndsInYear(format[1..], format[0] == '%')
  }

  /** The bytes that the parser takes for one specifier. */
  function SpecifierWidth(c: char): nat {
    if c == 'Y' then 4 else if IsNumber(c) || c == 'p' || c == 'P' then 2 else 1
  }

  function Width(format: string, inMod: bool): nat {
    if format == "" then 0
    else if inMod then SpecifierWidth(format[0]) + Width(format[1..], false)
    else (if format[0] == '%' then 0 else 1) + Width(format[1..], format[0] == '%')
  }

  lemma SpecifierTakes(c: char, input: string, f: Fields)
    requires IsShared(c)
    ensures var r := ParseSpecifier(c, input, f); r.Scanned? ==> |r.input| + SpecifierWidth(c) == |input|
  {
    hide Atoi, Store;
  }

  /** A text that parses is as long as the parser's fields. */
  lemma {:induction false} ParseTakes(format: string, inMod: bool, input: string, f: Fields)
    requires SharedFormat(format, inMod)
    ensures ParseFrom(format, inMod, input, f).Scanned? ==> Width(format, inMod) <= |input|
  {
    hide ParseSpecifier, IsShared, SpecifierWidth;
    if format == "" {
    } else if inMod {
      var r := ParseSpecifier(format[0], input, f);
      SpecifierTakes(format[0], input, f);
      if r.Scanned? {
        ParseTakes(format[1..], false, r.input, r.fields);
      }
    } else if format[0] == '%' {
      ParseTakes(format[1..], true, input, f);
    } else if input != "" {
      ParseTakes(format[1..], false, input[1..], f);
    }
  }

  /** The text of a year below 1000, and what `atoi` makes of it together with one more character. */
  lemma ShortYearText(n: int, c: char)
    requires 1 <= n <= 999
    ensures 1 <= |Plain(n)| <= 3 && IsDigit(Plain(n)[0])
    ensures |Plain(n)| == 3 <==> n >= 100
    ensures n >= 100 ==> Atoi(Plain(n) + [c]) == if IsDigit(c) then 10 * n + (c as int - 48) else n
  {
    var a, b, d := n / 100, n / 10 % 10, n % 10;
    DigitRead(d);
    hide Digit;
    assert Plain(n) == Decimal(n);
    if n < 10 {
      assert Decimal(n) == [Digit(d)];
    } else {
      assert Decimal(n) == Decimal(n / 10) + [Digit(d)];
      if n < 100 {
        DigitRead(n / 10);
        assert Decimal(n / 10) == [Digit(n / 10)];
      } else {
        assert n / 10 / 10 == a;
        assert Decimal(n / 10) == Decimal(a) + [Digit(b)] && Decimal(a) == [Digit(a)];
        ThreeDigits(a, b, d, c);
        assert Plain(n) + [c] == [Digit(a), Digit(b), Digit(d), c];
      }
    }
  }

  lemma ThreeDigits(a: int, b: int, d: int, c: char)
    requires 0 <= a < 10 && 0 <= b < 10 && 0 <= d < 10
    ensures var n := 100 * a + 10 * b + d;
      && IsDigit(Digit(a))
      && Atoi([Digit(a), Digit(b), Digit(d), c]) == if IsDigit(c) then 10 * n + (c as int - 48) else n
  {
    var s := [Digit(a), Digit(b), Digit(d), c];
    DigitRead(a);
    DigitRead(b);
    DigitRead(d);
    hide Digit;
    AtoiOfDigits(s);
    var t, u, v := [Digit(b), Digit(d), c], [Digit(d), c], [c];
    assert s[1..] == t && t[1..] == u && u[1..] == v && v[1..] == "";
    assert AtoiDigits(s, 0) == AtoiDigits(t, a);
    assert AtoiDigits(t, a) == AtoiDigits(u, 10 * a + b);
    assert AtoiDigits(u, 10 * a + b) == AtoiDigits(v, 100 * a + 10 * b + d);
    AtoiDigitsOfOne(v, 100 * a + 10 * b + d);
  }

  lemma AtoiDigitsOfOne(s: string, acc: int)
    requires |s| == 1
    ensures AtoiDigits(s, acc) == if IsDigit(s[0]) then 10 * acc + (s[0] as int - 48) else acc
  {
    assert s[1..] == "";
  }

  lemma TwoDigitText(n: int)
    requires 0 <= n < 100
    ensures |Padded(n)| == 2 && IsDigit(Padded(n)[0])
  {
    DigitRead(n / 10);
    DigitRead(n % 10);
    if n >= 10 {
      assert Decimal(n / 10) == [Digit(n / 10)];
    }
  }

  lemma SpecifierText(c: char, s: Stamp, other: char -> Option<string>)
    requires Canonical(s) && IsShared(c) && 1 <= Year(s) <= 999
    ensures var t := Specifier(c, s, other);
      && t.Some? && t.value != "" && |t.value| + (if c == 'Y' then 1 else 0) <= SpecifierWidth(c)
      && (IsDigit(t.value[0]) <==> IsNumber(c))
  {
    hide Day, Month, Year, Hour, Minute, Second, Padded, Plain;
    if c == 'Y' {
      ShortYearText(Year(s), 'Y');
    } else if IsNumber(c) {
      NumberPrinted(c, s, other);
      NumberInRange(c, s);
      TwoDigitText(PrintedNumber(c, s));
      hide Specifier, PrintedNumber;
    }
  }

  /** The text is shorter than the parser's fields if a year is in it, and not empty if the format says anything. */
  lemma {:induction false} ShortYearWidth(format: string, inMod: bool, s: Stamp, other: char -> Option<string>)
    requires Canonical(s) && SharedFormat(format, inMod) && 1 <= Year(s) <= 999
    ensures var t := PrintFrom(format, inMod, s, other);
      && t.Some? && |t.value| + (if Uses(format, inMod, 'Y') then 1 else 0) <= Width(format, inMod)
      && (t.value == "" <==> Silent(format, inMod))
  {
    hide Specifier, IsShared, SpecifierWidth, Year;
    if format == "" {
    } else if inMod {
      SpecifierText(format[0], s, other);
      ShortYearWidth(format[1..], false, s, other);
    } else {
      ShortYearWidth(format[1..], format[0] == '%', s, other);
    }
  }

  lemma AtoiOfTwo(s: string)
    requires |s| == 2
    ensures -99 <= Atoi(s) <= 99
  {
    var t := s[1..];
    assert t[1..] == "" && Atoi(t[1..]) == 0;
    AtoiDigitsOfOne(t, 0);
    AtoiDigitsOfOne(t, s[0] as int - 48);
  }

  /** A year of four digits stays one, whatever is read after it. */
  lemma {:induction false} LongYearStays(format: string, inMod: bool, input: string, f: Fields)
    requires SharedFormat(format, inMod) && !Uses(format, inMod, 'Y') && f.year >= 1000
    ensures var r := ParseFrom(format, inMod, input, f); r.Scanned? ==> r.fields.year >= 1000
  {
    hide ParseSpecifier, IsShared;
    if format == "" {
    } else if inMod {
      var r := ParseSpecifier(format[0], input, f);
      LongYearKept(format[0], input, f);
      if r.Scanned? {
        LongYearStays(format[1..], false, r.input, r.fields);
      }
    } else if format[0] == '%' {
      LongYearStays(format[1..], true, input, f);
    } else if input != "" {
      LongYearStays(format[1..], false, input[1..], f);
    }
  }

  lemma LongYearKept(c: char, input: string, f: Fields)
    requires c != 'Y' && f.year >= 1000
    ensures var r := ParseSpecifier(c, input, f); r.Scanned? ==> r.fields.year >= 1000
  {
    hide Atoi;
    if |input| >= 2 {
      AtoiOfTwo(input[..2]);
    }
  }

  /** A text that begins with no digit does not parse from its second character on. */
  lemma {:induction false} ShiftFails(format: string, inMod: bool, s: Stamp, other: char -> Option<string>, f: Fields)
    requires Canonical(s) && SharedFormat(format, inMod) && 1 <= Year(s) <= 999
    requires '\0' !in format && !Silent(format, inMod)
    requires var t := PrintFrom(format, inMod, s, other); t.Some? && t.value != "" && !IsDigit(t.value[0])
    ensures !ParseFrom(format, inMod, PrintFrom(format, inMod, s, other).value[1..] + "\0", f).Scanned?
  {
    hide Specifier, ParseSpecifier, IsShared, Year;
    var t := PrintFrom(format, inMod, s, other).value;
    if !inMod && format[0] == '%' {
      ShiftFails(format[1..], true, s, other, f);
    } else {
      var rest := PrintFrom(format[1..], false, s, other).value;
      if inMod {
        SpecifierText(format[0], s, other);
        assert t[0] == Specifier(format[0], s, other).value[0];
        TextShiftFails(format[0], s, other, rest, f);
      }
      var head := if inMod then Specifier(format[0], s, other).value else [format[0]];
      if |head| == 1 {
        assert (head + rest)[1..] == rest;
        ShortYearWidth(format[1..], false, s, other);
        if rest != "" && rest[0] == head[0] {
          ShiftFails(format[1..], false, s, other, f);
          assert (rest + "\0")[1..] == rest[1..] + "\0";
        }
      }
    }
  }

  lemma TextShiftFails(c: char, s: Stamp, other: char -> Option<string>, rest: string, f: Fields)
    requires IsShared(c) && !IsNumber(c) && s.julian >= 0
    ensures var t := Specifier(c, s, other);
      && t.Some? && t.value != ""
      && var r := ParseSpecifier(c, (t.value + rest)[1..] + "\0", f);
         (r.Scanned? ==> |t.value| == 1 && rest != "" && rest[0] == t.value[0] && r == Scanned(f, rest[1..] + "\0"))
  {
    hide Day, Month, Year, Hour, Minute, Second, Padded, Plain;
    var t := Specifier(c, s, other).value;
    var input := (t + rest)[1..] + "\0";
    if c == 'p' || c == 'P' {
      assert input[0] == t[1];
    } else {
      assert (t + rest)[1..] == rest && (rest != "" ==> input[0] == rest[0]) && input[1..] == (rest + "\0")[1..];
      assert rest != "" ==> input[1..] == rest[1..] + "\0";
    }
  }

  /**
   * What becomes of a printed text with a short year: it is read back to its end if the year has three digits and ends
   * it, and else not read at all or with a year of four digits.
   */
  predicate ReadsShortYear(format: string, inMod: bool, s: Stamp, other: char -> Option<string>, f: Fields)
    requires s.julian >= 0
  {
    var t := PrintFrom(format, inMod, s, other);
    && t.Some?
    && var r := ParseFrom(format, inMod, t.value + "\0", f);
       if Year(s) >= 100 && EndsInYear(format, inMod) then r == Scanned(After(format, inMod, s, f), "")
       else r.Scanned? ==> r.fields.year >= 1000 && Year(s) >= 100
  }

  lemma YearSpecifier(s: Stamp, other: char -> Option<string>, f: Fields)
    requires s.julian >= 0
    ensures Specifier('Y', s, other) == Some(Plain(Year(s))) && Update('Y', s, f) == f.(year := Year(s))
    ensures SpecifierWidth('Y') == 4
  {
    hide Year, Plain;
  }

  /** At a %Y, the text of the year comes first. */
  lemma FirstIsYear(format: string, s: Stamp, other: char -> Option<string>, f: Fields)
    requires s.julian >= 0 && format != "" && format[0] == 'Y' && SharedFormat(format, true)
    ensures PrintFrom(format, true, s, other) == Prefixed(Plain(Year(s)), PrintFrom(format[1..], false, s, other))
    ensures SharedFormat(format[1..], false) && Width(format, true) == 4 + Width(format[1..], false)
    ensures EndsInYear(format, true) <==> Silent(format[1..], false)
    ensures After(format, true, s, f) == After(format[1..], false, s, f.(year := Year(s)))
  {
    hide Year, Plain, Specifier, Update, SpecifierWidth, IsShared, Prefixed, Silent;
    YearSpecifier(s, other, f);
  }

  lemma YearTaken(format: string, input: string, f: Fields)
    requires format != "" && format[0] == 'Y' && |input| >= 4
    ensures ParseFrom(format, true, input, f) == ParseFrom(format[1..], false, input[4..], f.(year := Atoi(input[..4])))
  {
    hide Atoi;
  }

  lemma SilentReads(format: string, s: Stamp, f: Fields)
    requires s.julian >= 0 && Silent(format, false)
    ensures ParseFrom(format, false, "", f) == Scanned(f, "") && After(format, false, s, f) == f
    ensures !Uses(format, false, 'Y') && LastUse(format, false, 'Y', 'y') == None
  {
  }

  /** The input ends before the fields of the format do. */
  lemma ShortYearStarves(format: string, s: Stamp, other: char -> Option<string>, f: Fields)
    requires Canonical(s) && SharedFormat(format, true) && format != "" && format[0] == 'Y' && 1 <= Year(s) <= 999
    requires Year(s) < 100 || Uses(format[1..], false, 'Y')
    ensures ReadsShortYear(format, true, s, other, f)
  {
    hide PrintFrom, ParseFrom, Uses, SharedFormat, Width, After, Silent, Year, Plain, EndsInYear;
    var g := format[1..];
    FirstIsYear(format, s, other, f);
    ShortYearWidth(g, false, s, other);
    var rest := PrintFrom(g, false, s, other).value;
    ShortYearText(Year(s), 'Y');
    ParseTakes(format, true, (Plain(Year(s)) + rest) + "\0", f);
    if Silent(g, false) {
      SilentReads(g, s, f);
    }
  }

  /** A year of three digits takes the character printed after it, or the terminating NUL. */
  lemma AtShortYear(format: string, s: Stamp, other: char -> Option<string>, f: Fields)
    requires Canonical(s) && SharedFormat(format, true) && format != "" && format[0] == 'Y' && 100 <= Year(s) <= 999
    requires '\0' !in format && !Uses(format[1..], false, 'Y')
    ensures ReadsShortYear(format, true, s, other, f)
  {
    hide PrintFrom, ParseFrom, Uses, SharedFormat, Width, After, Silent, Year, Plain, EndsInYear, Atoi;
    var g := format[1..];
    FirstIsYear(format, s, other, f);
    ShortYearWidth(g, false, s, other);
    var year, rest := Plain(Year(s)), PrintFrom(g, false, s, other).value;
    var tail := rest + "\0";
    var text := (year + rest) + "\0";
    ShortYearText(Year(s), tail[0]);
    assert text[..4] == year + [tail[0]] && text[4..] == tail[1..];
    YearTaken(format, text, f);
    var back := f.(year := Atoi(text[..4]));
    if rest == "" {
      SilentReads(g, s, back);
    } else if IsDigit(rest[0]) {
      LongYearStays(g, false, tail[1..], back);
    } else {
      ShiftFails(g, false, s, other, back);
      assert tail[1..] == rest[1..] + "\0";
    }
  }

  lemma {:induction false} ShortYearRead(format: string, inMod: bool, s: Stamp, other: char -> Option<string>,
                                         f: Fields)
    requires Canonical(s) && SharedFormat(format, inMod) && 1 <= Year(s) <= 999
    requires '\0' !in format && Uses(format, inMod, 'Y')
    ensures ReadsShortYear(format, inMod, s, other, f)
  {
    hide Specifier, ParseSpecifier, Update, IsShared, Year;
    if inMod && format[0] == 'Y' {
      if Year(s) < 100 || Uses(format[1..], false, 'Y') {
        ShortYearStarves(format, s, other, f);
      } else {
        AtShortYear(format, s, other, f);
      }
    } else if inMod {
      var c := format[0];
      ShortYearRead(format[1..], false, s, other, Update(c, s, f));
      var rest := PrintFrom(format[1..], false, s, other).value;
      ShortYearSuits(c, s);
      SpecifierRead(c, s, other, rest + "\0", f);
      var head := Specifier(c, s, other).value;
      assert (head + rest) + "\0" == head + (rest + "\0");
    } else if format[0] == '%' {
      ShortYearRead(format[1..], true, s, other, f);
    } else {
      ShortYearRead(format[1..], false, s, other, f);
      var rest := PrintFrom(format[1..], false, s, other).value;
      var input := ([format[0]] + rest) + "\0";
      assert input[0] == format[0] && input[1..] == rest + "\0";
    }
  }

  lemma ShortYearSuits(c: char, s: Stamp)
    requires s.julian >= 0 && c != 'Y' && Year(s) >= 1
    ensures YearSuits(c, s)
  {
  }

  /** A date that the constructor accepts keeps its year, also when its day is behind the end of its month. */
  lemma YearOfAccepted(d: Date)
    requires Representable(d)
    ensures ToJulian(d) >= 0 && GetDmy(ToJulian(d)).year == d.year
  {
    hide ToJulian, GetDmy, Leap, YearStart, NewYear, DayOfYear, MonthStart;
    var first := Date(d.year, d.month, 1);
    JulianFitsField(d);
    JulianByMarch(d);
    JulianByMarch(first);
    JulianInYear(first);
    OrdinalOfFirst(first);
    NewYearStep(d.year);
    YearOfJulian(ToJulian(d), d.year);
  }

  lemma OrdinalOfFirst(first: Date)
    requires 1 <= first.month <= 12 && first.day == 1
    ensures Valid(first) && DayOfYear(first) + 30 <= YearLength(first.year)
  {
    hide Leap;
  }

  lemma {:induction false} EndsInYearUse(format: string, inMod: bool, s: Stamp, f: Fields)
    requires EndsInYear(format, inMod) && s.julian >= 0
    ensures LastUse(format, inMod, 'Y', 'y') == Some('Y')
  {
    hide Silent;
    if inMod && format[0] == 'Y' {
      SilentReads(format[1..], s, f);
    } else {
      EndsInYearUse(format[1..], !inMod && format[0] == '%', s, f);
    }
  }

  /**
   * Years 1 to 999 through %Y, which prints fewer characters than the four that the parser takes. The year comes back
   * if and only if it has three digits and the format uses %Y once, with nothing after it. Then the text parses to the
   * same date and time as for later years; else it does not parse, or to a year of four digits.
   */
  lemma ShortYearExact(format: string, s: Stamp, other: char -> Option<string>)
    requires Canonical(s) && SharedFormat(format, false) && 1 <= Year(s) <= 999
    requires '\0' !in format && Uses(format, false, 'Y')
    ensures PrintFrom(format, false, s, other).Some?
    ensures var p := ParseWith(format, PrintFrom(format, false, s, other).value + "\0");
      && (p.Parsed? ==> p.value.julian >= 0)
      && (p.Parsed? && Year(p.value) == Year(s) <==> Year(s) >= 100 && EndsInYear(format, false))
      && (p.Parsed? && Year(p.value) == Year(s)
          ==> p.value == Stamp(0, ToJulian(DateBack(format, s)), UsecBack(format, s)))
      && (p.Parsed? && Year(p.value) != Year(s) ==> Year(s) >= 100 && Year(p.value) >= 1000)
  {
    hide ToJulian, GetDmy, After, PrintFrom, ParseFrom, Uses, LastUse, SharedFormat, EndsInYear, Day, Hour, Minute,
      Second, HourBack, HourOfDay, Valid;
    ShortYearRead(format, false, s, other, DEFAULTS);
    var r := ParseFrom(format, false, PrintFrom(format, false, s, other).value + "\0", DEFAULTS);
    AfterIsCarried(format, s);
    FieldRanges(s);
    CarriedHour(format, s);
    if EndsInYear(format, false) {
      EndsInYearUse(format, false, s, DEFAULTS);
    }
    if r.Scanned? && Representable(Date(r.fields.year, r.fields.month, r.fields.day)) {
      YearOfAccepted(Date(r.fields.year, r.fields.month, r.fields.day));
    }
  }

  /** In May 999 the format "%Y%m" prints a text that is rejected, and in May 300 one that parses as May 3000. */
  lemma ShortYearCanBeWrong(other: char -> Option<string>)
    ensures var s := Stamp(0, ToJulian(Date(999, 5, 1)), 0);
      s.julian >= 0 && PrintFrom("%Y%m", false, s, other) == Some("99905") && ParseWith("%Y%m", "99905\0") == BadValue
    ensures var s := Stamp(0, ToJulian(Date(300, 5, 1)), 0);
      && s.julian >= 0 && PrintFrom("%Y%m", false, s, other) == Some("30005")
      && ParseWith("%Y%m", "30005\0") == Parsed(Stamp(0, ToJulian(Date(3000, 5, 1)), 0))
  {
    hide ToJulian, GetDmy, PrintFrom, ParseWith, Plain, Padded, Atoi;
    DmyOfJulian(Date(999, 5, 1));
    DmyOfJulian(Date(300, 5, 1));
    PrintYearMonth(Stamp(0, ToJulian(Date(999, 5, 1)), 0), other);
    PrintYearMonth(Stamp(0, ToJulian(Date(300, 5, 1)), 0), other);
    YearAndMonth();
    assert "999" + "05" == "99905" && "300" + "05" == "30005";
    assert "99905\0"[..4] == "9990" && "99905\0"[4..] == "5\0";
    assert "30005\0"[..4] == "3000" && "30005\0"[4..] == "5\0";
    ParseYearMonth("99905\0", 9990, 5);
    ParseYearMonth("30005\0", 3000, 5);
    JulianFitsField(Date(3000, 5, 1));
  }

  lemma PrintYearMonth(s: Stamp, other: char -> Option<string>)
    requires s.julian >= 0
    ensures PrintFrom("%Y%m", false, s, other) == Some(Plain(Year(s)) + Padded(Month(s)))
  {
    hide Year, Month, Plain, Padded, Specifier;
    var f := "%Y%m";
    assert f[1..] == "Y%m" && "Y%m"[1..] == "%m" && "%m"[1..] == "m" && "m"[1..] == "";
    YearSpecifier(s, other, DEFAULTS);
    MonthSpecifier(s, other);
    assert PrintFrom("m", true, s, other) == Some(Padded(Month(s)) + "");
    assert Padded(Month(s)) + "" == Padded(Month(s));
    assert PrintFrom("%m", false, s, other) == Some(Padded(Month(s)));
    assert PrintFrom("Y%m", true, s, other) == Some(Plain(Year(s)) + Padded(Month(s)));
  }

  lemma MonthSpecifier(s: Stamp, other: char -> Option<string>)
    requires s.julian >= 0
    ensures Specifier('m', s, other) == Some(Padded(Month(s)))
  {
    hide Month, Padded;
  }

  lemma ParseYearMonth(input: string, year: int, month: int)
    requires |input| == 6 && Atoi(input[..4]) == year && Atoi(input[4..]) == month
    ensures ParseWith("%Y%m", input) == Conclude(DEFAULTS.(year := year, month := month))
  {
    hide Atoi, Conclude;
    var f, rest := "%Y%m", input[4..];
    assert f[1..] == "Y%m" && "Y%m"[1..] == "%m" && "%m"[1..] == "m" && "m"[1..] == "";
    assert rest[..2] == rest;
    YearTaken("Y%m", input, DEFAULTS);
    assert ParseFrom("m", true, rest, DEFAULTS.(year := year))
        == ParseFrom("", false, rest[2..], DEFAULTS.(year := year, month := month));
  }

  lemma YearAndMonth()
    ensures Plain(999) == "999" && Plain(300) == "300" && Padded(5) == "05"
    ensures Atoi("9990") == 9990 && Atoi("3000") == 3000 && Atoi("5\0") == 5
  {
    assert Decimal(99) == Decimal(9) + [Digit(9)] && Decimal(999) == Decimal(99) + [Digit(9)];
    assert Decimal(30) == Decimal(3) + [Digit(0)] && Decimal(300) == Decimal(30) + [Digit(0)];
    FourDigits(9, 9, 9, 0);
    FourDigits(3, 0, 0, 0);
    AtoiOfDigits("5\0");
    assert "5\0"[1..] == "\0";
  }

  // ---------------------------------------------------------------- what the parsed date shows

  /** The parsed date is a date of the calendar unless it lost its leap day. */
  lemma DateBackValid(format: string, s: Stamp)
    requires Canonical(s) && YearSuitsAll(format, false, s)
    ensures Valid(DateBack(format, s)) <==> !LosesLeapDay(format, s)
  {
    hide Uses, YearBack, Day, Leap, GetDmy;
    FieldRanges(s);
    ShortMonths(DateBack(format, s), GetDmy(s.julian));
  }

  lemma ShortMonths(back: Date, d: Date)
    requires Valid(d) && (back.month == d.month || back.month == 1) && (back.day == d.day || back.day == 1)
    ensures Valid(back) <==> !(back.month == 2 && back.day == 29 && !Leap(back.year))
  {
    hide Leap;
  }

  lemma LeapDayIsFirstOfMarch(y: int)
    requires !Leap(y)
    ensures ToJulian(Date(y, 2, 29)) == ToJulian(Date(y, 3, 1))
  {
    hide ToJulian, Leap, YearStart, Valid;
    JulianByMarch(Date(y, 2, 28));
    JulianByMarch(Date(y, 2, 29));
    LastOfFebruary(y);
    NextJulian(Date(y, 2, 28));
  }

  lemma LastOfFebruary(y: int)
    requires !Leap(y)
    ensures Valid(Date(y, 2, 28)) && Next(Date(y, 2, 28)) == Date(y, 3, 1)
  {
    hide Leap;
  }

  lemma TimeBack(h: int, m: int, sec: int, s: Stamp)
    requires 0 <= h < 24 && 0 <= m < 60 && 0 <= sec < 60
    requires s.usec == h * USEC_PER_HOUR + m * USEC_PER_MINUTE + sec * USEC_PER_SECOND
    ensures Hour(s) == h && Minute(s) == m && Second(s) == sec && 0 <= s.usec < USEC_PER_DAY
  {
    var ofHour := m * USEC_PER_MINUTE + sec * USEC_PER_SECOND;
    assert s.usec % USEC_PER_HOUR == ofHour;
    ByMinute(s.usec, 60 * h + m, sec * USEC_PER_SECOND);
  }

  /** Month and day of `r` are those of `s`, wherever the format carries them. */
  predicate SameDay(format: string, s: Stamp, r: Stamp)
    requires s.julian >= 0 && r.julian >= 0
  {
    (Uses(format, false, 'm') ==> Month(r) == Month(s)) && (Uses(format, false, 'd') ==> Day(r) == Day(s))
  }

  /** Minute and second of `r` are those of `s`, wherever the format carries them; year and hour are as described. */
  predicate SameTime(format: string, s: Stamp, r: Stamp)
    requires s.julian >= 0 && r.julian >= 0
  {
    && Year(r) == YearBack(format, s)
    && Hour(r) == HourBack(format, s)
    && (Uses(format, false, 'M') ==> Minute(r) == Minute(s))
    && (Uses(format, false, 'S') ==> Second(r) == Second(s))
  }

  /**
   * What the parsed date, if there is one, shows of the original: its month and day agree if and only if the date is
   * not a 29 February that lost its leap year; the year, hour, minute and second always come back as described above.
   */
  lemma RoundTripAgrees(format: string, s: Stamp, other: char -> Option<string>)
    requires Canonical(s) && SharedFormat(format, false) && YearSuitsAll(format, false, s)
    ensures PrintFrom(format, false, s, other).Some?
    ensures var p := ParseWith(format, PrintFrom(format, false, s, other).value + "\0");
      && (p.Parsed? <==> YearBack(format, s) <= 3268)
      && (p.Parsed? ==> p.value.julian >= 0 && SameTime(format, s, p.value)
                        && (SameDay(format, s, p.value) <==> !LosesLeapDay(format, s)))
  {
    hide ToJulian, GetDmy, PrintFrom, ParseWith, Uses, LastUse, SharedFormat, YearBack, HourBack, HourOfDay, Valid,
      Leap, ScanFrom, GetWeekNumber, Hour, Minute, Second;
    PrintThenParse(format, s, other);
    YearBackRange(format, s);
    if YearBack(format, s) <= 3268 {
      ParsedShows(format, s);
    }
  }

  /** The date and time made of the carried fields, as `RoundTripAgrees` says. */
  lemma ParsedShows(format: string, s: Stamp)
    requires Canonical(s) && YearSuitsAll(format, false, s) && 1 <= YearBack(format, s)
    ensures var r := Stamp(0, ToJulian(DateBack(format, s)), UsecBack(format, s));
      r.julian >= 0 && SameTime(format, s, r) && (SameDay(format, s, r) <==> !LosesLeapDay(format, s))
  {
    hide ToJulian, GetDmy, Uses, LastUse, YearBack, HourBack, Valid, Leap, ScanFrom, GetWeekNumber, Hour, Minute,
      Second;
    FieldRanges(s);
    HourBackRange(format, s);
    var d := DateBack(format, s);
    var r := Stamp(0, ToJulian(d), UsecBack(format, s));
    TimeBack(HourBack(format, s), if Uses(format, false, 'M') then Minute(s) else 0,
             if Uses(format, false, 'S') then Second(s) else 0, r);
    DateBackValid(format, s);
    if LosesLeapDay(format, s) {
      LeapDayIsFirstOfMarch(d.year);
      FirstOfMarchValid(d.year);
      DmyOfJulian(Date(d.year, 3, 1));
      DayOfMonthExact(Date(d.year, 3, 1));
    } else {
      DmyOfJulian(d);
      DayOfMonthExact(d);
    }
  }

  lemma FirstOfMarchValid(y: int)
    ensures Valid(Date(y, 3, 1))
  {
  }

  lemma HourBackRange(format: string, s: Stamp)
    requires 0 <= Hour(s) < 24
    ensures 0 <= HourBack(format, s) < 24
  {
    hide Uses, LastUse, Hour;
  }
}
