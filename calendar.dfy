/**
  Calendar arithmetic standing in for the script's `Date` objects: a record's
  `date` string read as a proleptic Gregorian date, day numbers counted from
  1970-01-01, and the weekday numbering of `getDay()` (0 = Sunday).
 */
module Calendar {
  import opened Wrappers
  import opened Numbers

  datatype Date = Date(year: int, month: int, day: int)

  predicate IsLeapYear(y: int)
  {
    (y % 4 == 0 && y % 100 != 0) || y % 400 == 0
  }

  function DaysInMonth(y: int, m: int): int
    requires 1 <= m <= 12
  {
    if m == 2 then (if IsLeapYear(y) then 29 else 28)
    else if m == 4 || m == 6 || m == 9 || m == 11 then 30
    else 31
  }

  predicate ValidDate(d: Date)
  {
    1 <= d.month <= 12 && 1 <= d.day <= DaysInMonth(d.year, d.month)
  }

  const MillisPerDay: int := 86_400_000

  /** Milliseconds since midnight. */
  type TimeOfDay = n: int | 0 <= n < 86_400_000

  /**
    A point in time as a `Date` object holds it: a calendar day and the time
    of day. A date-only string reads as midnight of its day.
   */
  datatype Moment = Moment(date: Date, time: TimeOfDay)

  /** `getTime()`: milliseconds since 1970-01-01 at midnight. */
  function TimeValue(m: Moment): int
  {
    DayNumber(m.date) * MillisPerDay + m.time
  }

  /** `new Date(s)` for a date-only string `YYYY-MM-DD`; anything else is an invalid date. */
  function ParseIsoDate(s: string): (r: Option<Date>)
    ensures r.Some? ==> ValidDate(r.value)
  {
    if |s| == 10 && AllDigits(s[..4]) && s[4] == '-' && AllDigits(s[5..7]) && s[7] == '-' && AllDigits(s[8..])
    then
      var d := Date(DigitsValue(s[..4]), DigitsValue(s[5..7]), DigitsValue(s[8..]));
      if ValidDate(d) then Some(d) else None
    else None
  }

  /** Two decimal digits, with a leading zero below 10. */
  function Digits2(n: nat): (t: string)
    requires n < 100
    ensures |t| == 2 && AllDigits(t)
  {
    [DigitChar(n / 10), DigitChar(n % 10)]
  }

  /** Four decimal digits, with leading zeros. */
  function Digits4(n: nat): (t: string)
    requires n < 10000
    ensures |t| == 4 && AllDigits(t)
  {
    Digits2(n / 100) + Digits2(n % 100)
  }

  /** The canonical `YYYY-MM-DD` text of a date of the years 0 to 9999. */
  function FormatIsoDate(d: Date): (s: string)
    requires 0 <= d.year < 10000 && 1 <= d.month <= 12 && 1 <= d.day <= 31
    ensures |s| == 10
  {
    Digits4(d.year) + "-" + Digits2(d.month) + "-" + Digits2(d.day)
  }

  lemma Digits2Value(n: nat)
    requires n < 100
    ensures DigitsValue(Digits2(n)) == n
  {
    var t := Digits2(n);
    assert t[..1] == [t[0]];
    assert DigitsValue(t[..1]) == DigitValue(t[0]);
  }

  lemma DigitsValueAppend2(a: string, b: string)
    requires AllDigits(a) && AllDigits(b) && |b| == 2
    ensures AllDigits(a + b) && DigitsValue(a + b) == DigitsValue(a) * 100 + DigitsValue(b)
  {
    var ab := a + b;
    assert ab[..|ab| - 1] == a + [b[0]];
    assert (a + [b[0]])[..|a|] == a;
    assert b[..1] == [b[0]];
    assert DigitsValue(b[..1]) == DigitValue(b[0]);
  }

  lemma Digits4Value(n: nat)
    requires n < 10000
    ensures DigitsValue(Digits4(n)) == n
  {
    Digits2Value(n / 100);
    Digits2Value(n % 100);
    DigitsValueAppend2(Digits2(n / 100), Digits2(n % 100));
  }

  lemma DigitRoundTrip(c: char)
    requires IsDigit(c)
    ensures DigitChar(DigitValue(c)) == c
  {
  }

  /** A two-digit text is the `Digits2` of its value. */
  lemma Digits2OfValue(t: string)
    requires |t| == 2 && AllDigits(t)
    ensures DigitsValue(t) < 100 && Digits2(DigitsValue(t)) == t
  {
    assert t[..1] == [t[0]];
    assert DigitsValue(t[..1]) == DigitValue(t[0]);
    DigitRoundTrip(t[0]);
    DigitRoundTrip(t[1]);
  }

  lemma DivModHundred(a: nat, b: nat)
    requires b < 100
    ensures (a * 100 + b) / 100 == a && (a * 100 + b) % 100 == b
  {
  }

  /** A four-digit text is the `Digits4` of its value. */
  lemma Digits4OfValue(t: string)
    requires |t| == 4 && AllDigits(t)
    ensures DigitsValue(t) < 10000 && Digits4(DigitsValue(t)) == t
  {
    var hi, lo := t[..2], t[2..];
    assert t == hi + lo;
    DigitsValueAppend2(hi, lo);
    Digits2OfValue(hi);
    Digits2OfValue(lo);
    DivModHundred(DigitsValue(hi), DigitsValue(lo));
  }

  /** Every date `ParseIsoDate` accepts is written exactly as its text. */
  lemma ParsedIsFormatted(s: string)
    requires ParseIsoDate(s).Some?
    ensures var d := ParseIsoDate(s).value;
      0 <= d.year < 10000 && FormatIsoDate(d) == s
  {
    Digits4OfValue(s[..4]);
    Digits2OfValue(s[5..7]);
    Digits2OfValue(s[8..]);
    assert s == s[..4] + "-" + s[5..7] + "-" + s[8..];
  }

  /** Every valid date of the years 0 to 9999 is read back from its text. */
  lemma ParseOfFormatted(d: Date)
    requires ValidDate(d) && 0 <= d.year < 10000
    ensures ParseIsoDate(FormatIsoDate(d)) == Some(d)
  {
    var s := FormatIsoDate(d);
    assert s[..4] == Digits4(d.year) && s[5..7] == Digits2(d.month) && s[8..] == Digits2(d.day);
    Digits4Value(d.year);
    Digits2Value(d.month);
    Digits2Value(d.day);
  }

  /** `new Date(s)` of a date-only text gives `d` exactly when `s` is the `YYYY-MM-DD` text of the valid date `d`. */
  lemma ParseIsoDateExactly(s: string, d: Date)
    ensures ParseIsoDate(s) == Some(d) <==>
      ValidDate(d) && 0 <= d.year < 10000 && s == FormatIsoDate(d)
  {
    if ParseIsoDate(s) == Some(d) {
      ParsedIsFormatted(s);
    }
    if ValidDate(d) && 0 <= d.year < 10000 && s == FormatIsoDate(d) {
      ParseOfFormatted(d);
    }
  }

  /** The year a date falls in when years are counted from March, so that February ends the year. */
  function MarchYear(d: Date): int
  {
    if d.month <= 2 then d.year - 1 else d.year
  }

  /** The month of a date counted from March: 0 is March, 11 is February. */
  function MarchMonth(d: Date): int
  {
    if d.month > 2 then d.month - 3 else d.month + 9
  }

  /** Days since 1970-01-01 (negative before it), counted in the proleptic Gregorian calendar. */
  function DayNumber(d: Date): int
  {
    YearStart(MarchYear(d)) + MonthStart(MarchMonth(d)) + d.day - 1 - 719468
  }

  /** `getDay()` of the day with the given number: 0 is Sunday; 1970-01-01 was a Thursday. */
  function Weekday(n: int): (w: int)
    ensures 0 <= w < 7
  {
    (n + 4) % 7
  }

  /** The calendar day after `d`. */
  function NextDay(d: Date): (n: Date)
    requires ValidDate(d)
    ensures ValidDate(n)
  {
    if d.day < DaysInMonth(d.year, d.month) then Date(d.year, d.month, d.day + 1)
    else if d.month < 12 then Date(d.year, d.month + 1, 1)
    else Date(d.year + 1, 1, 1)
  }

  /** The day number at which the March-based year `y` begins, less the epoch offset. */
  function YearStart(y: int): int
  {
    var era := y / 400;
    var yoe := y - era * 400;
    era * 146097 + yoe * 365 + yoe / 4 - yoe / 100
  }

  lemma YearStartInEra(e: int, k: int)
    requires 0 <= k < 400
    ensures YearStart(400 * e + k) == 146097 * e + 365 * k + k / 4 - k / 100
  {
    assert (400 * e + k) / 400 == e;
  }

  lemma ShiftFour(n: int, k: int)
    ensures (4 * n + k) % 4 == k % 4
  {
  }

  lemma ShiftHundred(n: int, k: int)
    ensures (100 * n + k) % 100 == k % 100
  {
  }

  lemma ShiftFourHundred(n: int, k: int)
    ensures (400 * n + k) % 400 == k % 400
  {
  }

  lemma LeapInEra(y: int, e: int, k: int)
    requires y == 400 * e + k && 0 <= k < 400
    ensures IsLeapYear(y) <==> (k % 4 == 0 && k % 100 != 0) || k == 0
  {
    ShiftFour(100 * e, k);
    ShiftHundred(4 * e, k);
    ShiftFourHundred(e, k);
    assert y % 4 == k % 4 && y % 100 == k % 100 && y % 400 == k;
  }

  lemma HundredIsFour(k: int)
    requires k % 100 == 0
    ensures k % 4 == 0
  {
    assert k == 100 * (k / 100);
    assert k == 4 * (25 * (k / 100));
  }

  lemma YearOfEraLength(k: int)
    requires 0 < k < 400
    ensures (365 * k + k / 4 - k / 100) - (365 * (k - 1) + (k - 1) / 4 - (k - 1) / 100)
            == if k % 4 == 0 && k % 100 != 0 then 366 else 365
  {
    if k % 100 == 0 {
      HundredIsFour(k);
    }
  }

  lemma FirstYearOfEra(y: int, e: int)
    requires y == 400 * e
    ensures YearStart(y) - YearStart(y - 1) == 366
  {
    YearStartInEra(e, 0);
    assert y - 1 == 400 * (e - 1) + 399;
    YearStartInEra(e - 1, 399);
  }

  lemma LaterYearOfEra(y: int, e: int, k: int)
    requires y == 400 * e + k && 0 < k < 400
    ensures YearStart(y) - YearStart(y - 1) == if k % 4 == 0 && k % 100 != 0 then 366 else 365
  {
    YearStartInEra(e, k);
    assert y - 1 == 400 * e + (k - 1);
    YearStartInEra(e, k - 1);
    YearOfEraLength(k);
  }

  /** The March-based year `y - 1` has 366 days exactly when February of `y` has 29. */
  lemma YearLength(y: int)
    ensures YearStart(y) - YearStart(y - 1) == if IsLeapYear(y) then 366 else 365
  {
    var e, k := y / 400, y % 400;
    LeapInEra(y, e, k);
    if k == 0 {
      FirstYearOfEra(y, e);
    } else {
      LaterYearOfEra(y, e, k);
    }
  }

  /** The day of the March-based year on which month `mp` (0 = March) begins. */
  function MonthStart(mp: int): int
  {
    (153 * mp + 2) / 5
  }

  /** Every month from March to January is as long as `DaysInMonth` says. */
  lemma MonthLength(y: int, m: int)
    requires 1 <= m <= 12 && m != 2
    ensures var mp := if m > 2 then m - 3 else m + 9;
      MonthStart(mp + 1) - MonthStart(mp) == DaysInMonth(y, m)
  {
  }

  lemma NextDayInMonth(d: Date)
    requires ValidDate(d) && d.day < DaysInMonth(d.year, d.month)
    ensures DayNumber(NextDay(d)) == DayNumber(d) + 1
  {
  }

  lemma NextDayNewMonth(d: Date)
    requires ValidDate(d) && d.day == DaysInMonth(d.year, d.month) && d.month != 2
    ensures DayNumber(NextDay(d)) == DayNumber(d) + 1
  {
    MonthLength(d.year, d.month);
    if d.month == 12 {
      assert MonthStart(10) == 306;
    }
  }

  lemma NextDayMarch(d: Date)
    requires ValidDate(d) && d.day == DaysInMonth(d.year, d.month) && d.month == 2
    ensures DayNumber(NextDay(d)) == DayNumber(d) + 1
  {
    YearLength(d.year);
    assert MonthStart(11) == 337;
    assert MonthStart(0) == 0;
  }

  /** Consecutive calendar days have consecutive day numbers. */
  lemma DayNumberOfNextDay(d: Date)
    requires ValidDate(d)
    ensures DayNumber(NextDay(d)) == DayNumber(d) + 1
  {
    if d.day < DaysInMonth(d.year, d.month) {
      NextDayInMonth(d);
    } else if d.month != 2 {
      NextDayNewMonth(d);
    } else {
      NextDayMarch(d);
    }
  }

  /** The day numbering is anchored where `Date` is: 1970-01-01 is day 0, a Thursday. */
  lemma EpochIsThursday()
    ensures DayNumber(Date(1970, 1, 1)) == 0 && Weekday(0) == 4
  {
    assert MarchYear(Date(1970, 1, 1)) == 1969 && MarchMonth(Date(1970, 1, 1)) == 10;
    assert YearStart(1969) == 719162 by {
      assert 1969 / 400 == 4;
      assert 369 / 4 == 92 && 369 / 100 == 3;
    }
    assert MonthStart(10) == 306;
  }
}
