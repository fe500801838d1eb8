/** Properties of the calendar engine: where Easter and the feasts fall, how
    the season decision carves up a year, when the season week exists, and
    the weekday. Years are those `time.Parse` accepts (0..9999) or, where the
    statement allows, any year from 0 on. */
module CalendarFacts {
  import opened Wrappers
  import opened Decimal
  import opened Civil
  import opened Calendar

  /** Day `day` of month `month` of year `y`, as a day number. */
  function On(y: int, month: int, day: int): int
    requires 1 <= month <= 12
  {
    DayNumber(Date(y, month, day))
  }

  // ---------------------------------------------------------------------------
  // Easter

  /** For non-negative operands Go's truncating division agrees with Dafny's. */
  lemma GoDivisionAgrees(a: int, b: int)
    requires a >= 0 && b > 0
    ensures GoQuo(a, b) == a / b && GoRem(a, b) == a % b
  {
  }

  /** From 1583 on the Gregorian computation keeps r = 22 + h + l - 7m
      between 22 and 56: Easter falls from March 22 to April 25. */
  lemma GregorianEasterRange(year: int)
    requires year >= 1583
    ensures var t := Gregorian(year);
      && 0 <= t.h <= 29 && 0 <= t.l <= 6 && 0 <= t.m <= 1
      && EasterOffset(year) == 22 + t.h + t.l - 7 * t.m
      && 22 <= EasterOffset(year) <= 56
  {
  }

  /** Before 1583 the Julian computation keeps r = 22 + d + e between 22 and 57. */
  lemma JulianEasterRange(year: int)
    requires 0 <= year < 1583
    ensures var t := Julian(year);
      && 0 <= t.d <= 29 && 0 <= t.e <= 6
      && EasterOffset(year) == 22 + t.d + t.e
      && 22 <= EasterOffset(year) <= 57
  {
  }

  /** Easter of any year from 0 on is in March or April of that same year:
      March r when r <= 31, otherwise April r - 31. */
  lemma EasterInMarchOrApril(year: int)
    requires year >= 0
    ensures var e := EasterDate(year); var r := EasterOffset(year);
      && e.year == year
      && (e.month == 3 || e.month == 4)
      && (r <= 31 ==> e == Date(year, 3, r))
      && (r > 31 ==> e == Date(year, 4, r - 31))
  {
    var e := EasterDate(year);
    var r := EasterOffset(year);
    if r <= 31 {
      DayNumberOrder(e, Date(year, 3, r));
    } else {
      DayNumberOrder(e, Date(year, 4, r - 31));
    }
  }

  lemma Easter2025()
    ensures EasterDate(2025) == Date(2025, 4, 20)
  {
    assert GoRem(2025, 19) == 11 && GoQuo(2025, 100) == 20 && GoRem(2025, 100) == 25;
    assert GoQuo(20, 4) == 5 && GoRem(20, 4) == 0 && GoQuo(28, 25) == 1 && GoQuo(20, 3) == 6;
    assert GoRem(233, 30) == 23 && GoQuo(25, 4) == 6 && GoRem(25, 4) == 1;
    assert GoRem(20, 7) == 6 && GoQuo(396, 451) == 0;
    assert Gregorian(2025) == GregorianTerms(11, 23, 6, 0);
    assert EasterOffset(2025) == 51;
    EasterInMarchOrApril(2025);
  }

  // ---------------------------------------------------------------------------
  // Where the feasts fall

  /** The feasts of a year from 0 on, as day numbers relative to the months
      of that year: Easter March 22..April 26, Ash Wednesday February 4..March 12,
      Pentecost May 10..June 14, the Advent Sunday November 27..December 3. */
  lemma FeastBounds(y: int)
    requires y >= 0
    ensures var easter := DayNumber(EasterDate(y));
      && On(y, 3, 22) <= easter <= On(y, 4, 26)
      && DayNumber(AshWednesday(y)) == easter - 46
      && DayNumber(HolyThursday(y)) == easter - 3
      && DayNumber(Pentecost(y)) == easter + 49
      && On(y, 2, 4) <= DayNumber(AshWednesday(y)) <= On(y, 3, 12)
      && On(y, 5, 10) <= DayNumber(Pentecost(y)) <= On(y, 6, 14)
      && On(y, 11, 27) <= DayNumber(SundayOnOrAfterNov27(y)) <= On(y, 12, 3)
  {
  }

  /** Ash Wednesday lies in its own year, in February or March, and is in
      February exactly when it comes before March 1. */
  lemma AshWednesdayMonth(y: int)
    requires y >= 0
    ensures AshWednesday(y).year == y
    ensures AshWednesday(y).month == 2 || AshWednesday(y).month == 3
    ensures AshWednesday(y).month == 2 <==> DayNumber(AshWednesday(y)) < On(y, 3, 1)
  {
    var a := AshWednesday(y);
    FeastBounds(y);
    DayNumberOrder(Date(y, 2, 4), a);
    DayNumberOrder(a, Date(y, 3, 12));
    DayNumberOrder(a, Date(y, 3, 1));
  }

  /** A day number within month `m` of year `y` belongs to a date of that month. */
  lemma MonthOfDayNumber(d: Date, y: int, m: int)
    requires ValidDate(d) && 1 <= m <= 12
    requires On(y, m, 1) <= DayNumber(d) <= On(y, m, DaysInMonth(y, m))
    ensures d.year == y && d.month == m
  {
    DayNumberOrder(Date(y, m, 1), d);
    DayNumberOrder(d, Date(y, m, DaysInMonth(y, m)));
  }
}
