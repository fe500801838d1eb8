/** Civil dates of the proleptic Gregorian calendar (the calendar Go's `time`
    package uses for every year), numbered as consecutive days, together with
    the `YYYY-MM-DD` text form read by `time.Parse` and written by `Format`. */
module Civil {
  import opened Wrappers
  import opened Decimal

  datatype Date = Date(year: int, month: int, day: int)

  /** The Gregorian leap-year rule. */
  predicate IsLeap(y: int) {
    y % 4 == 0 && (y % 100 != 0 || y % 400 == 0)
  }

  function DaysInMonth(y: int, m: int): (n: int)
    requires 1 <= m <= 12
    ensures 28 <= n <= 31
  {
    if m == 2 then (if IsLeap(y) then 29 else 28)
    else if m == 4 || m == 6 || m == 9 || m == 11 then 30
    else 31
  }

  predicate ValidDate(d: Date) {
    1 <= d.month <= 12 && 1 <= d.day <= DaysInMonth(d.year, d.month)
  }

  function YearLength(y: int): int {
    if IsLeap(y) then 366 else 365
  }

  /** Days from 0000-01-01 to January 1 of year `y` (negative before year 0). */
  function DaysBeforeYear(y: int): int {
    365 * y + (y + 3) / 4 - (y + 99) / 100 + (y + 399) / 400
  }

  /** Days from January 1 to the first of month `m` of year `y`. */
  function DaysBeforeMonth(y: int, m: int): int
    requires 1 <= m <= 12
  {
    var leap := if m > 2 && IsLeap(y) then 1 else 0;
    leap + (
      if m == 1 then 0 else if m == 2 then 31 else if m == 3 then 59
      else if m == 4 then 90 else if m == 5 then 120 else if m == 6 then 151
      else if m == 7 then 181 else if m == 8 then 212 else if m == 9 then 243
      else if m == 10 then 273 else if m == 11 then 304 else 334)
  }

  /** The day number of a date: 0 for 0000-01-01, one more for each later day. */
  function DayNumber(d: Date): int
    requires 1 <= d.month <= 12
  {
    DaysBeforeYear(d.year) + DaysBeforeMonth(d.year, d.month) + d.day - 1
  }

  /** Lexicographic order on (year, month, day). */
  predicate Before(a: Date, b: Date) {
    a.year < b.year
    || (a.year == b.year && (a.month < b.month || (a.month == b.month && a.day < b.day)))
  }

  /** Go's `time.Date(y, m, d, ...)` for a day of month outside the month:
      the overflow rolls into the following or preceding months and years. */
  function Normalize(y: int, m: int, d: int): (r: Date)
    requires 1 <= m <= 12
    ensures ValidDate(r)
    ensures DayNumber(r) == DayNumber(Date(y, m, 1)) + d - 1
    decreases if d < 1 then 1 - d else 0, if d < 1 then 0 else d
  {
    if d < 1 then
      if m == 1 then
        YearStep(y - 1);
        MonthStep(y - 1, 12);
        assert DayNumber(Date(y - 1, 12, 1)) + 31 == DayNumber(Date(y, 1, 1));
        Normalize(y - 1, 12, d + 31)
      else
        MonthStep(y, m - 1);
        assert DayNumber(Date(y, m - 1, 1)) + DaysInMonth(y, m - 1) == DayNumber(Date(y, m, 1));
        Normalize(y, m - 1, d + DaysInMonth(y, m - 1))
    else if d > DaysInMonth(y, m) then
      if m == 12 then
        YearStep(y);
        MonthStep(y, 12);
        assert DayNumber(Date(y, 12, 1)) + 31 == DayNumber(Date(y + 1, 1, 1));
        Normalize(y + 1, 1, d - 31)
      else
        MonthStep(y, m);
        assert DayNumber(Date(y, m, 1)) + DaysInMonth(y, m) == DayNumber(Date(y, m + 1, 1));
        Normalize(y, m + 1, d - DaysInMonth(y, m))
    else
      Date(y, m, d)
  }

  /** Go's `t.AddDate(0, 0, n)`. */
  function AddDays(c: Date, n: int): (r: Date)
    requires ValidDate(c)
    ensures ValidDate(r)
    ensures DayNumber(r) == DayNumber(c) + n
  {
    Normalize(c.year, c.month, c.day + n)
  }

  /** Day of the week, 0 = Sunday .. 6 = Saturday; 0000-01-01 was a Saturday. */
  function WeekdayIndex(d: Date): (w: int)
    requires 1 <= d.month <= 12
    ensures 0 <= w < 7
  {
    (DayNumber(d) + 6) % 7
  }

  /** Go's `time.Parse("2006-01-02", s)`: four year digits, a dash, two month
      digits, a dash, two day digits, nothing more, and an existing date. */
  function ParseDate(s: string): (r: Option<Date>)
    ensures r.Some? ==> ValidDate(r.value) && 0 <= r.value.year <= 9999
  {
    if |s| != 10 || !AllDigits(s[0..4]) || s[4] != '-' || !AllDigits(s[5..7])
       || s[7] != '-' || !AllDigits(s[8..10])
    then None
    else
      var d := Date(DigitsValue(s[0..4]), DigitsValue(s[5..7]), DigitsValue(s[8..10]));
      if 1 <= d.month <= 12 && 1 <= d.day <= DaysInMonth(d.year, d.month) then Some(d) else None
  }

  /** Go's `t.Format("2006-01-02")`; a negative year is written with a minus
      sign and a year above 9999 with all of its digits. */
  function FormatDate(d: Date): (s: string)
    requires ValidDate(d)
    ensures 0 <= d.year <= 9999 ==> |s| == 10 && s[4] == '-' && s[7] == '-'
    ensures d.year < 0 ==> |s| > 0 && s[0] == '-'
  {
    assert 0 <= d.year <= 9999 ==>
      |PadDigits(d.year, 4)| == 4 && |PadDigits(d.month, 2)| == 2 && |PadDigits(d.day, 2)| == 2 by {
      if 0 <= d.year <= 9999 {
        assert Pow10(4) == 10000 && Pow10(2) == 100;
        PadDigitsWidth(d.year, 4);
        PadDigitsWidth(d.month, 2);
        PadDigitsWidth(d.day, 2);
      }
    }
    var year := if d.year < 0 then "-" + PadDigits(-d.year, 4) else PadDigits(d.year, 4);
    year + "-" + PadDigits(d.month, 2) + "-" + PadDigits(d.day, 2)
  }

  // ---------------------------------------------------------------------------
  // Day-number arithmetic

  lemma QuotientStep(y: int)
    ensures (y + 4) / 4 == (y + 3) / 4 + (if y % 4 == 0 then 1 else 0)
    ensures (y + 100) / 100 == (y + 99) / 100 + (if y % 100 == 0 then 1 else 0)
    ensures (y + 400) / 400 == (y + 399) / 400 + (if y % 400 == 0 then 1 else 0)
  {
    QuotientStep4(y);
    QuotientStep100(y);
    QuotientStep400(y);
  }

  lemma QuotientStep4(y: int)
    ensures (y + 4) / 4 == (y + 3) / 4 + (if y % 4 == 0 then 1 else 0)
  {
    var q, r := (y + 3) / 4, (y + 3) % 4;
    assert y + 3 == 4 * q + r && 0 <= r < 4;
    if r == 3 {
      assert y + 4 == 4 * (q + 1) && y == 4 * q;
    } else {
      assert y + 4 == 4 * q + (r + 1) && y == 4 * (q - 1) + (r + 1);
    }
  }

  lemma QuotientStep100(y: int)
    ensures (y + 100) / 100 == (y + 99) / 100 + (if y % 100 == 0 then 1 else 0)
  {
    var q, r := (y + 99) / 100, (y + 99) % 100;
    assert y + 99 == 100 * q + r && 0 <= r < 100;
    if r == 99 {
      assert y + 100 == 100 * (q + 1) && y == 100 * q;
    } else {
      assert y + 100 == 100 * q + (r + 1) && y == 100 * (q - 1) + (r + 1);
    }
  }

  lemma QuotientStep400(y: int)
    ensures (y + 400) / 400 == (y + 399) / 400 + (if y % 400 == 0 then 1 else 0)
  {
    var q, r := (y + 399) / 400, (y + 399) % 400;
    assert y + 399 == 400 * q + r && 0 <= r < 400;
    if r == 399 {
      assert y + 400 == 400 * (q + 1) && y == 400 * q;
    } else {
      assert y + 400 == 400 * q + (r + 1) && y == 400 * (q - 1) + (r + 1);
    }
  }

  /** Consecutive years start `YearLength` days apart. */
  lemma YearStep(y: int)
    ensures DaysBeforeYear(y + 1) == DaysBeforeYear(y) + YearLength(y)
  {
    QuotientStep(y);
  }

  /** Consecutive months start `DaysInMonth` days apart; December ends the year. */
  lemma MonthStep(y: int, m: int)
    requires 1 <= m <= 12
    ensures m < 12 ==> DaysBeforeMonth(y, m + 1) == DaysBeforeMonth(y, m) + DaysInMonth(y, m)
    ensures m == 12 ==> DaysBeforeMonth(y, m) + DaysInMonth(y, m) == YearLength(y)
  {
  }

  /** Later years start later, by at least 365 days a year. */
  lemma {:induction false} DaysBeforeYearMonotone(a: int, b: int)
    requires a <= b
    ensures DaysBeforeYear(a) + 365 * (b - a) <= DaysBeforeYear(b)
    decreases b - a
  {
    if a < b {
      DaysBeforeYearMonotone(a, b - 1);
      YearStep(b - 1);
    }
  }

  /** A valid date's day number lies within its year. */
  lemma DayNumberInYear(d: Date)
    requires ValidDate(d)
    ensures DaysBeforeYear(d.year) <= DayNumber(d) < DaysBeforeYear(d.year + 1)
  {
    YearStep(d.year);
  }

  /** Day numbers order valid dates exactly as (year, month, day) does, so a
      valid date is determined by its day number. */
  lemma DayNumberOrder(a: Date, b: Date)
    requires ValidDate(a) && ValidDate(b)
    ensures DayNumber(a) < DayNumber(b) <==> Before(a, b)
    ensures DayNumber(a) == DayNumber(b) <==> a == b
  {
    DayNumberInYear(a);
    DayNumberInYear(b);
    if a.year < b.year {
      DaysBeforeYearMonotone(a.year + 1, b.year);
    } else if b.year < a.year {
      DaysBeforeYearMonotone(b.year + 1, a.year);
    }
  }

  /** A date whose day number falls within year `y` belongs to year `y`. */
  lemma YearOfDayNumber(d: Date, y: int)
    requires ValidDate(d)
    requires DaysBeforeYear(y) <= DayNumber(d) < DaysBeforeYear(y + 1)
    ensures d.year == y
  {
    DayNumberInYear(d);
    if d.year < y {
      DaysBeforeYearMonotone(d.year + 1, y);
    } else if d.year > y {
      DaysBeforeYearMonotone(y + 1, d.year);
    }
  }

  /** Moving one day forward advances the weekday by one, cyclically. */
  lemma WeekdayAdvances(c: Date, n: int)
    requires ValidDate(c)
    ensures WeekdayIndex(AddDays(c, n)) == (WeekdayIndex(c) + n) % 7
  {
    var x := DayNumber(c) + 6;
    var a := AddDays(c, n);
    assert DayNumber(a) + 6 == x + n;
    ModOfShift(x / 7, x % 7 + n);
    assert x + n == 7 * (x / 7) + (x % 7 + n);
  }

  lemma ModOfShift(q: int, y: int)
    ensures (7 * q + y) % 7 == y % 7
  {
    var t, r := y / 7, y % 7;
    assert y == 7 * t + r && 0 <= r < 7;
    assert 7 * q + y == 7 * (q + t) + r;
  }

  /** Normalising a day that already lies inside its month changes nothing. */
  lemma NormalizeInRange(y: int, m: int, d: int)
    requires ValidDate(Date(y, m, d))
    ensures Normalize(y, m, d) == Date(y, m, d)
  {
  }

  // ---------------------------------------------------------------------------
  // Text form

  /** Formatting a date of years 0..9999 and parsing the text gives the date back. */
  lemma FormatThenParse(d: Date)
    requires ValidDate(d) && 0 <= d.year <= 9999
    ensures ParseDate(FormatDate(d)) == Some(d)
  {
    assert Pow10(4) == 10000 && Pow10(2) == 100;
    PadDigitsWidth(d.year, 4);
    PadDigitsWidth(d.month, 2);
    PadDigitsWidth(d.day, 2);
    var s := FormatDate(d);
    assert s[0..4] == PadDigits(d.year, 4);
    assert s[5..7] == PadDigits(d.month, 2);
    assert s[8..10] == PadDigits(d.day, 2);
  }

  /** A date outside years 0..9999 is formatted as text that does not parse. */
  lemma FormatOutOfRangeDoesNotParse(d: Date)
    requires ValidDate(d) && (d.year < 0 || d.year > 9999)
    ensures ParseDate(FormatDate(d)) == None
  {
    var s := FormatDate(d);
    if d.year > 9999 {
      assert Pow10(4) == 10000;
      DigitsLength(d.year, 4);
      assert |PadDigits(d.year, 4)| >= 5;
      assert |s| >= 11;
    } else {
      assert |s| >= 11;
    }
  }

  /** Two texts that parse to the same date are the same text. */
  lemma ParseDateInjective(s: string, t: string)
    requires ParseDate(s).Some? && ParseDate(s) == ParseDate(t)
    ensures s == t
  {
    DigitsValueInjective(s[0..4], t[0..4]);
    DigitsValueInjective(s[5..7], t[5..7]);
    DigitsValueInjective(s[8..10], t[8..10]);
    assert s == s[0..4] + [s[4]] + s[5..7] + [s[7]] + s[8..10];
    assert t == t[0..4] + [t[4]] + t[5..7] + [t[7]] + t[8..10];
  }

  /** Parsing is undone by formatting: every accepted text is in canonical form. */
  lemma ParseThenFormat(s: string)
    requires ParseDate(s).Some?
    ensures FormatDate(ParseDate(s).value) == s
  {
    var d := ParseDate(s).value;
    FormatThenParse(d);
    ParseDateInjective(s, FormatDate(d));
  }
}
