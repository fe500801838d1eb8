/** The calendar on concrete dates of 2023 to 2025: the boundaries the
    engine's own tests exercise, the weekdays of one week, the error cases,
    and two dates whose season week does not exist. */
module CalendarExamples {
  import opened Wrappers
  import opened Decimal
  import opened Civil
  import opened Calendar
  import opened CalendarFacts
  import opened SeasonFacts

  // ---------------------------------------------------------------------------
  // The feasts of 2023 to 2025

  lemma YearStart2025()
    ensures DaysBeforeYear(2025) == 739617
  {
    assert 2028 / 4 == 507;
    assert 2124 / 100 == 21;
    assert 2424 / 400 == 6;
  }

  lemma YearStart2024()
    ensures DaysBeforeYear(2024) == 739251
  {
    YearStep(2024);
    YearStart2025();
  }

  lemma YearStart2023()
    ensures DaysBeforeYear(2023) == 738886
  {
    YearStep(2023);
    YearStart2024();
  }

  /** The movable feasts of 2025 that follow Easter on April 20. */
  lemma Feasts2025()
    ensures EasterDate(2025) == Date(2025, 4, 20)
    ensures AshWednesday(2025) == Date(2025, 3, 5)
    ensures HolyThursday(2025) == Date(2025, 4, 17)
    ensures Pentecost(2025) == Date(2025, 6, 8)
  {
    Easter2025();
    DayNumberOrder(AshWednesday(2025), Date(2025, 3, 5));
    DayNumberOrder(HolyThursday(2025), Date(2025, 4, 17));
    DayNumberOrder(Pentecost(2025), Date(2025, 6, 8));
  }

  /** The Ordinary Time of 2025 opens on June 9, the day after Pentecost. */
  lemma OrdinaryStart2025()
    ensures AddDays(Pentecost(2025), 1) == Date(2025, 6, 9)
  {
    Feasts2025();
    DayNumberOrder(AddDays(Pentecost(2025), 1), Date(2025, 6, 9));
  }

  /** November 27, 2025 is a Thursday, so Advent 2025 begins on November 30. */
  lemma Advent2025()
    ensures SundayOnOrAfterNov27(2025) == Date(2025, 11, 30)
  {
    var nov27 := Date(2025, 11, 27);
    YearStart2025();
    assert DaysBeforeMonth(2025, 11) == 304;
    assert DayNumber(nov27) == 739617 + 304 + 26;
    assert WeekdayIndex(nov27) == 4;
    DayNumberOrder(SundayOnOrAfterNov27(2025), Date(2025, 11, 30));
  }

  /** November 27, 2023 is a Monday, so Advent 2023 begins on December 3. */
  lemma Advent2023()
    ensures SundayOnOrAfterNov27(2023) == Date(2023, 12, 3)
  {
    var nov27 := Date(2023, 11, 27);
    YearStart2023();
    assert DaysBeforeMonth(2023, 11) == 304;
    assert DayNumber(nov27) == 738886 + 304 + 26;
    assert WeekdayIndex(nov27) == 1;
    DayNumberOrder(SundayOnOrAfterNov27(2023), Date(2023, 12, 3));
  }

  /** The ten characters of a four-digit-year date, spelled out digit by digit. */
  function DateChars(d: Date): string
    requires 1000 <= d.year <= 9999 && 1 <= d.month <= 12 && 1 <= d.day <= 31
  {
    [ DigitChar(d.year / 1000), DigitChar(d.year / 100 % 10), DigitChar(d.year / 10 % 10), DigitChar(d.year % 10),
      '-', DigitChar(d.month / 10), DigitChar(d.month % 10),
      '-', DigitChar(d.day / 10), DigitChar(d.day % 10) ]
  }

  lemma YearText(y: nat)
    requires 1000 <= y <= 9999
    ensures PadDigits(y, 4) == [DigitChar(y / 1000), DigitChar(y / 100 % 10), DigitChar(y / 10 % 10), DigitChar(y % 10)]
  {
    assert NatToDigits(y / 1000) == [DigitChar(y / 1000)];
    assert (y / 10) / 10 == y / 100 && (y / 100) / 10 == y / 1000;
    assert NatToDigits(y / 100) == [DigitChar(y / 1000), DigitChar(y / 100 % 10)];
    assert NatToDigits(y / 10) == [DigitChar(y / 1000), DigitChar(y / 100 % 10), DigitChar(y / 10 % 10)];
  }

  /** A date with a four-digit year parses back from its spelled-out text. */
  lemma ParsesAs(d: Date, s: string)
    requires ValidDate(d) && 1000 <= d.year <= 9999 && DateChars(d) == s
    ensures ParseDate(s) == Some(d)
  {
    YearText(d.year);
    TwoDigitText(d.month);
    TwoDigitText(d.day);
    assert FormatDate(d) == s;
    FormatThenParse(d);
  }

  // ---------------------------------------------------------------------------
  // The date texts used below

  lemma Parses2025_11_29()
    ensures ParseDate("2025-11-29") == Some(Date(2025, 11, 29))
  {
    ParsesAs(Date(2025, 11, 29), "2025-11-29");
  }

  lemma Parses2025_11_30()
    ensures ParseDate("2025-11-30") == Some(Date(2025, 11, 30))
  {
    ParsesAs(Date(2025, 11, 30), "2025-11-30");
  }

  lemma Parses2025_12_24()
    ensures ParseDate("2025-12-24") == Some(Date(2025, 12, 24))
  {
    ParsesAs(Date(2025, 12, 24), "2025-12-24");
  }

  lemma Parses2025_12_25()
    ensures ParseDate("2025-12-25") == Some(Date(2025, 12, 25))
  {
    ParsesAs(Date(2025, 12, 25), "2025-12-25");
  }

  lemma Parses2025_01_05()
    ensures ParseDate("2025-01-05") == Some(Date(2025, 1, 5))
  {
    ParsesAs(Date(2025, 1, 5), "2025-01-05");
  }

  lemma Parses2025_01_06()
    ensures ParseDate("2025-01-06") == Some(Date(2025, 1, 6))
  {
    ParsesAs(Date(2025, 1, 6), "2025-01-06");
  }

  lemma Parses2025_03_05()
    ensures ParseDate("2025-03-05") == Some(Date(2025, 3, 5))
  {
    ParsesAs(Date(2025, 3, 5), "2025-03-05");
  }

  lemma Parses2025_03_09()
    ensures ParseDate("2025-03-09") == Some(Date(2025, 3, 9))
  {
    ParsesAs(Date(2025, 3, 9), "2025-03-09");
  }

  lemma Parses2025_04_17()
    ensures ParseDate("2025-04-17") == Some(Date(2025, 4, 17))
  {
    ParsesAs(Date(2025, 4, 17), "2025-04-17");
  }

  lemma Parses2025_04_20()
    ensures ParseDate("2025-04-20") == Some(Date(2025, 4, 20))
  {
    ParsesAs(Date(2025, 4, 20), "2025-04-20");
  }

  lemma Parses2025_06_09()
    ensures ParseDate("2025-06-09") == Some(Date(2025, 6, 9))
  {
    ParsesAs(Date(2025, 6, 9), "2025-06-09");
  }

  lemma Parses2025_06_01()
    ensures ParseDate("2025-06-01") == Some(Date(2025, 6, 1))
  {
    ParsesAs(Date(2025, 6, 1), "2025-06-01");
  }

  lemma Parses2023_12_01()
    ensures ParseDate("2023-12-01") == Some(Date(2023, 12, 1))
  {
    ParsesAs(Date(2023, 12, 1), "2023-12-01");
  }

  lemma Parses2025_03_12()
    ensures ParseDate("2025-03-12") == Some(Date(2025, 3, 12))
  {
    ParsesAs(Date(2025, 3, 12), "2025-03-12");
  }

  lemma Parses2025_03_15()
    ensures ParseDate("2025-03-15") == Some(Date(2025, 3, 15))
  {
    ParsesAs(Date(2025, 3, 15), "2025-03-15");
  }

  lemma Parses2025_01_01()
    ensures ParseDate("2025-01-01") == Some(Date(2025, 1, 1))
  {
    ParsesAs(Date(2025, 1, 1), "2025-01-01");
  }

  /** A text that parses to a date outside both start windows gets a day key
      carrying the date's season. */
  lemma SeasonOfText(s: string, d: Date, season: Season)
    requires ParseDate(s) == Some(d) && !StartWindow(d) && RomanSeason(d) == season
    ensures GetRomanDay(s, Roman).Success? && GetRomanDay(s, Roman).value.season == season
  {
    RomanDayFailsExactly(s);
  }

  // ---------------------------------------------------------------------------
  // Season boundaries of 2025

  /** The seasons of the dates around each boundary of 2025, none of them in a
      start window. */
  lemma NovemberFacts2025()
    ensures !StartWindow(Date(2025, 11, 29)) && RomanSeason(Date(2025, 11, 29)) == Ordinary
    ensures !StartWindow(Date(2025, 11, 30)) && RomanSeason(Date(2025, 11, 30)) == Advent
  {
    Advent2025();
    YearStart2025();
  }

  lemma DecemberFacts2025()
    ensures !StartWindow(Date(2025, 12, 24)) && RomanSeason(Date(2025, 12, 24)) == Advent
    ensures !StartWindow(Date(2025, 12, 25)) && RomanSeason(Date(2025, 12, 25)) == Christmastide
  {
    Advent2025();
    YearStart2025();
  }

  lemma WinterFacts2025()
    ensures !StartWindow(Date(2025, 1, 5)) && RomanSeason(Date(2025, 1, 5)) == Christmastide
    ensures !StartWindow(Date(2025, 1, 6)) && RomanSeason(Date(2025, 1, 6)) == Epiphanytide
  {
  }

  lemma SpringFacts2025()
    ensures !StartWindow(Date(2025, 3, 5)) && RomanSeason(Date(2025, 3, 5)) == Lent
    ensures !StartWindow(Date(2025, 3, 9)) && RomanSeason(Date(2025, 3, 9)) == Lent
    ensures !StartWindow(Date(2025, 4, 17)) && RomanSeason(Date(2025, 4, 17)) == Triduum
    ensures !StartWindow(Date(2025, 4, 20)) && RomanSeason(Date(2025, 4, 20)) == Easter
    ensures !StartWindow(Date(2025, 6, 9)) && RomanSeason(Date(2025, 6, 9)) == Ordinary
  {
    Feasts2025();
    YearStart2025();
  }


  /** The Saturday before Advent 2025 is still in Ordinary Time. */
  lemma DayBeforeAdvent2025()
    ensures GetRomanDay("2025-11-29", Roman).Success? && GetRomanDay("2025-11-29", Roman).value.season == Ordinary
  {
    Parses2025_11_29();
    NovemberFacts2025();
    SeasonOfText("2025-11-29", Date(2025, 11, 29), Ordinary);
  }

  /** The Advent Sunday of 2025 opens Advent. */
  lemma AdventSunday2025()
    ensures GetRomanDay("2025-11-30", Roman).Success? && GetRomanDay("2025-11-30", Roman).value.season == Advent
  {
    Parses2025_11_30();
    NovemberFacts2025();
    SeasonOfText("2025-11-30", Date(2025, 11, 30), Advent);
  }

  /** Christmas Eve is the last day of Advent. */
  lemma ChristmasEve2025()
    ensures GetRomanDay("2025-12-24", Roman).Success? && GetRomanDay("2025-12-24", Roman).value.season == Advent
  {
    Parses2025_12_24();
    DecemberFacts2025();
    SeasonOfText("2025-12-24", Date(2025, 12, 24), Advent);
  }

  /** Christmas Day opens Christmastide. */
  lemma ChristmasDay2025()
    ensures GetRomanDay("2025-12-25", Roman).Success? && GetRomanDay("2025-12-25", Roman).value.season == Christmastide
  {
    Parses2025_12_25();
    DecemberFacts2025();
    SeasonOfText("2025-12-25", Date(2025, 12, 25), Christmastide);
  }

  /** January 5 still belongs to the Christmastide that began the year before. */
  lemma TwelfthDay2025()
    ensures GetRomanDay("2025-01-05", Roman).Success? && GetRomanDay("2025-01-05", Roman).value.season == Christmastide
  {
    Parses2025_01_05();
    WinterFacts2025();
    SeasonOfText("2025-01-05", Date(2025, 1, 5), Christmastide);
  }

  /** January 6 opens Epiphanytide. */
  lemma Epiphany2025()
    ensures GetRomanDay("2025-01-06", Roman).Success? && GetRomanDay("2025-01-06", Roman).value.season == Epiphanytide
  {
    Parses2025_01_06();
    WinterFacts2025();
    SeasonOfText("2025-01-06", Date(2025, 1, 6), Epiphanytide);
  }

  /** Ash Wednesday 2025 opens Lent. */
  lemma AshWednesday2025()
    ensures GetRomanDay("2025-03-05", Roman).Success? && GetRomanDay("2025-03-05", Roman).value.season == Lent
  {
    Parses2025_03_05();
    SpringFacts2025();
    SeasonOfText("2025-03-05", Date(2025, 3, 5), Lent);
  }

  /** The first Sunday of Lent 2025. */
  lemma FirstSundayOfLent2025()
    ensures GetRomanDay("2025-03-09", Roman).Success? && GetRomanDay("2025-03-09", Roman).value.season == Lent
  {
    Parses2025_03_09();
    SpringFacts2025();
    SeasonOfText("2025-03-09", Date(2025, 3, 9), Lent);
  }

  /** Holy Thursday 2025 opens the Triduum. */
  lemma HolyThursday2025()
    ensures GetRomanDay("2025-04-17", Roman).Success? && GetRomanDay("2025-04-17", Roman).value.season == Triduum
  {
    Parses2025_04_17();
    SpringFacts2025();
    SeasonOfText("2025-04-17", Date(2025, 4, 17), Triduum);
  }

  /** Easter Sunday 2025 opens Easter season. */
  lemma EasterSunday2025()
    ensures GetRomanDay("2025-04-20", Roman).Success? && GetRomanDay("2025-04-20", Roman).value.season == Easter
  {
    Parses2025_04_20();
    SpringFacts2025();
    SeasonOfText("2025-04-20", Date(2025, 4, 20), Easter);
  }

  /** The day after Pentecost 2025 opens Ordinary Time. */
  lemma DayAfterPentecost2025()
    ensures GetRomanDay("2025-06-09", Roman).Success? && GetRomanDay("2025-06-09", Roman).value.season == Ordinary
  {
    Parses2025_06_09();
    SpringFacts2025();
    SeasonOfText("2025-06-09", Date(2025, 6, 9), Ordinary);
  }

  // ---------------------------------------------------------------------------
  // Dates whose season week does not exist

  /** June 1, 2025 is classified Ordinary Time, but Ordinary Time starts on
      June 9, after Pentecost on June 8: the day has no season week and
      `GetRomanDay` rejects it. */
  lemma JuneBeforePentecost2025()
    ensures GetRomanSeason("2025-06-01", Roman) == Success(Ordinary)
    ensures GetRomanDay("2025-06-01", Roman) == Failure(ValidationFailed)
  {
    Parses2025_06_01();
    JuneFacts2025();
    RomanDayFailsExactly("2025-06-01");
  }

  lemma JuneFacts2025()
    ensures StartWindow(Date(2025, 6, 1)) && RomanSeason(Date(2025, 6, 1)) == Ordinary
  {
    Feasts2025();
  }

  /** December 1, 2023 is classified Advent, but Advent 2023 starts on
      December 3: the day has no season week and `GetRomanDay` rejects it. */
  lemma DecemberBeforeAdvent2023()
    ensures GetRomanSeason("2023-12-01", Roman) == Success(Advent)
    ensures GetRomanDay("2023-12-01", Roman) == Failure(ValidationFailed)
  {
    Parses2023_12_01();
    DecemberFacts2023();
    RomanDayFailsExactly("2023-12-01");
  }

  lemma DecemberFacts2023()
    ensures StartWindow(Date(2023, 12, 1)) && RomanSeason(Date(2023, 12, 1)) == Advent
  {
    Advent2023();
    YearStart2023();
  }

  // ---------------------------------------------------------------------------
  // Weekdays and error cases

  /** March 9, 2025 falls on weekday index 0, a Sunday. */
  lemma March9Index()
    ensures WeekdayIndex(Date(2025, 3, 9)) == 0
  {
    YearStart2025();
  }

  lemma March12Index()
    ensures WeekdayIndex(Date(2025, 3, 12)) == 3
  {
    YearStart2025();
  }

  lemma March15Index()
    ensures WeekdayIndex(Date(2025, 3, 15)) == 6
  {
    YearStart2025();
  }

  /** A text that parses to a date gets the weekday of that date's index. */
  lemma WeekdayOfText(s: string, d: Date, weekday: Weekday)
    requires ParseDate(s) == Some(d) && WeekdayIndex(d) == WeekdayIndexOf(weekday)
    ensures GetRomanWeekday(s) == Success(weekday)
  {
    WeekdayIndexOfInjective(GetRomanWeekday(s).value, weekday);
  }

  /** March 9, 2025 is a Sunday. */
  lemma SundayMarch9_2025()
    ensures GetRomanWeekday("2025-03-09") == Success(Sunday)
  {
    Parses2025_03_09();
    March9Index();
    WeekdayOfText("2025-03-09", Date(2025, 3, 9), Sunday);
  }

  /** March 12, 2025 is a Wednesday. */
  lemma WednesdayMarch12_2025()
    ensures GetRomanWeekday("2025-03-12") == Success(Wednesday)
  {
    Parses2025_03_12();
    March12Index();
    WeekdayOfText("2025-03-12", Date(2025, 3, 12), Wednesday);
  }

  /** March 15, 2025 is a Saturday. */
  lemma SaturdayMarch15_2025()
    ensures GetRomanWeekday("2025-03-15") == Success(Saturday)
  {
    Parses2025_03_15();
    March15Index();
    WeekdayOfText("2025-03-15", Date(2025, 3, 15), Saturday);
  }

  /** Text that is not a date is a parse failure. */
  lemma InvalidDateText()
    ensures GetRomanWeekday("invalid-date") == Failure(ParseDateFailed)
  {
  }

  /** February 29 does not exist in 2025, so the text does not parse. */
  lemma NoLeapDay2025()
    ensures GetRomanDay("2025-02-29", Roman) == Failure(ParseDateFailed)
  {
    var s := "2025-02-29";
    assert s[0..4] == "2025";
    assert s[5..7] == "02";
    assert s[8..10] == "29";
    assert "2025"[..3] == "202";
    assert "202"[..2] == "20";
    assert "20"[..1] == "2";
    assert DigitsValue("2025") == 2025;
    assert "02"[..1] == "0";
    assert DigitsValue("02") == 2;
    assert "29"[..1] == "2";
    assert DigitsValue("29") == 29;
  }

  /** An unknown tradition is rejected before the date is looked at. */
  lemma UnknownTradition()
    ensures GetRomanDay("2025-03-09", "Invalid") == Failure(UnsupportedCalendarTradition)
    ensures GetRomanSeason("2025-03-09", "Invalid") == Failure(UnsupportedCalendarTradition)
    ensures GetRomanSeasonStartDate("2025-03-09", Lent, "Invalid") == Failure(UnsupportedCalendarTradition)
  {
  }

  /** New Year's Day 2025 precedes Ash Wednesday, so it has no week of Lent. */
  lemma NewYearBeforeLent2025()
    ensures GetRomanSeasonWeek("2025-01-01", Lent, Roman) == Failure(ValidationFailed)
  {
    Parses2025_01_01();
    LentStartFacts2025();
  }

  lemma LentStartFacts2025()
    ensures DayNumber(Date(2025, 1, 1)) < DayNumber(SeasonStart(Date(2025, 1, 1), Lent))
  {
    Feasts2025();
  }
}
