/** The two enumerations on concrete years: 2024, whose every day has its
    season week, and 2025, whose Pentecost falls in June. */
module GenerationExamples {
  import opened Wrappers
  import opened Decimal
  import opened Civil
  import opened Calendar
  import opened CalendarFacts
  import opened CalendarExamples
  import opened Generation

  // ---------------------------------------------------------------------------
  // The feasts of 2024

  lemma Easter2024()
    ensures EasterDate(2024) == Date(2024, 3, 31)
  {
    assert GoRem(2024, 19) == 10 && GoQuo(2024, 100) == 20 && GoRem(2024, 100) == 24;
    assert GoQuo(20, 4) == 5 && GoRem(20, 4) == 0 && GoQuo(28, 25) == 1 && GoQuo(20, 3) == 6;
    assert GoRem(214, 30) == 4 && GoQuo(24, 4) == 6 && GoRem(24, 4) == 0;
    assert GoRem(40, 7) == 5 && GoQuo(164, 451) == 0;
    assert Gregorian(2024) == GregorianTerms(10, 4, 5, 0);
    assert EasterOffset(2024) == 31;
    EasterInMarchOrApril(2024);
  }

  /** Easter 2024 is March 31, so Pentecost is May 19. */
  lemma Pentecost2024()
    ensures Pentecost(2024) == Date(2024, 5, 19)
  {
    Easter2024();
    DayNumberOrder(Pentecost(2024), Date(2024, 5, 19));
  }

  /** November 27, 2024 is a Wednesday, so Advent 2024 begins on December 1. */
  lemma Advent2024()
    ensures SundayOnOrAfterNov27(2024) == Date(2024, 12, 1)
  {
    var nov27 := Date(2024, 11, 27);
    YearStart2024();
    assert DaysBeforeMonth(2024, 11) == 305;
    assert DayNumber(nov27) == 739251 + 305 + 26;
    assert WeekdayIndex(nov27) == 3;
    DayNumberOrder(SundayOnOrAfterNov27(2024), Date(2024, 12, 1));
  }

  /** Every day of 2024 has its season week. */
  lemma CleanYear2024()
    ensures CleanYear(2024)
  {
    Pentecost2024();
    Advent2024();
  }

  /** Pentecost 2025 falls on June 8, so 2025 is not a clean year. */
  lemma UncleanYear2025()
    ensures !CleanYear(2025)
  {
    Feasts2025();
  }

  lemma YearText2024()
    ensures IsYearText("2024") && DigitsValue("2024") == 2024
  {
    assert "2024"[..3] == "202";
    assert "202"[..2] == "20";
    assert "20"[..1] == "2";
  }

  lemma YearText2025()
    ensures IsYearText("2025") && DigitsValue("2025") == 2025
  {
    assert "2025"[..3] == "202";
    assert "202"[..2] == "20";
    assert "20"[..1] == "2";
  }

  // ---------------------------------------------------------------------------
  // GenerateRomanCalendar

  /** The first and last days of 2024, as texts. */
  lemma EndsOf2024()
    ensures FormatDate(Date(2024, 1, 1)) == "2024-01-01"
    ensures FormatDate(Date(2024, 12, 31)) == "2024-12-31"
  {
    FormatText(Date(2024, 1, 1), "2024-01-01");
    FormatText(Date(2024, 12, 31), "2024-12-31");
  }

  /** A valid date with a four-digit year formats to its spelled-out text. */
  lemma FormatText(d: Date, s: string)
    requires ValidDate(d) && 1000 <= d.year <= 9999 && DateChars(d) == s
    ensures FormatDate(d) == s
  {
    FormatThenParse(d);
    ParsesAs(d, s);
    ParseDateInjective(FormatDate(d), s);
  }

  /** The walk over 2024 succeeds. */
  lemma Walk2024(year: string)
    requires year == "2024"
    ensures YearWalk(2024, Scan(year, Roman, 1, 1)) && Scan(year, Roman, 1, 1).Success?
  {
    YearText2024();
    CleanYear2024();
    GenerateFacts(year, Roman);
  }

  /** The leap year 2024 has 366 keys, from January 1 to December 31, each
      of the Roman tradition and with a season week. */
  lemma Generate2024(year: string)
    requires year == "2024"
    ensures var r := Scan(year, Roman, 1, 1);
      && r.Success? && |r.value| == 366
      && r.value[0].date == "2024-01-01"
      && r.value[365].date == "2024-12-31"
      && forall k :: k in r.value ==> k.tradition == Roman && k.seasonWeek >= 1
  {
    Walk2024(year);
    var r := Scan(year, Roman, 1, 1);
    EndsOf2024();
    WalkSpansYear(2024, r);
    WalkKeysAreRoman(2024, r);
  }

  /** Every key of a successful walk is a valid key of the Roman tradition. */
  lemma WalkKeysAreRoman(y: int, r: Result<seq<DayKey>, CalendarError>)
    requires YearWalk(y, r) && r.Success?
    ensures forall k :: k in r.value ==> k.tradition == Roman && k.seasonWeek >= 1
  {
    forall k | k in r.value
      ensures k.tradition == Roman && k.seasonWeek >= 1
    {
      assert IsRomanKey(k);
    }
  }

  /** 2025 has a day without a season week, so the whole walk fails. */
  lemma Generate2025()
    ensures Scan("2025", Roman, 1, 1) == Failure(ValidationFailed)
  {
    YearText2025();
    UncleanYear2025();
    GenerateFacts("2025", Roman);
  }

  /** A year text that is not four digits parses no date: no keys, no error. */
  lemma GenerateShortYear()
    ensures Scan("24", Roman, 1, 1) == Success([])
    ensures Scan("year", Roman, 1, 1) == Success([])
  {
    GenerateFacts("24", Roman);
    assert !IsDigit("year"[0]);
    GenerateFacts("year", Roman);
  }

  /** Another tradition is rejected on January 1. */
  lemma GenerateInvalidTradition()
    ensures Scan("2025", "Invalid", 1, 1) == Failure(UnsupportedCalendarTradition)
  {
    YearText2025();
    GenerateFacts("2025", "Invalid");
  }

  // ---------------------------------------------------------------------------
  // Holidays

  lemma EasterSunday2024Text()
    ensures FormatDate(Date(2024, 3, 31)) == "2024-03-31"
    ensures WeekdayIndex(Date(2024, 3, 31)) == 0
  {
    FormatText(Date(2024, 3, 31), "2024-03-31");
    YearStart2024();
  }

  /** The six holidays of 2024 all have their keys; Easter Sunday is the
      first Sunday of Easter season, March 31. */
  lemma Holidays2024(year: int)
    requires year == 2024
    ensures var w := HolidayScan(year, Roman, 0);
      && w.Success?
      && HolidayMap(year, KeyMap(w.value))
      && "Easter Sunday" in KeyMap(w.value)
      && KeyMap(w.value)["Easter Sunday"] == DayKey("2024-03-31", Roman, Easter, 1, Sunday)
  {
    Pentecost2024();
    HolidayFacts(year, Roman);
    HolidayMapOf(year);
    Easter2024();
    EasterSunday2024Text();
    var h := KeyMap(HolidayScan(year, Roman, 0).value);
    assert HolidayNames[3] == "Easter Sunday";
    assert h[HolidayNames[3]] == HolidayKey(HolidayDates(2024)[3], 3);
  }

  /** Pentecost 2025 on June 8 has no week of Ordinary Time: `Holidays` fails. */
  lemma Holidays2025()
    ensures HolidayScan(2025, Roman, 0) == Failure(ValidationFailed)
  {
    Feasts2025();
    HolidayFacts(2025, Roman);
  }

  /** Another tradition is rejected before any holiday is looked up. */
  lemma HolidaysInvalidTradition()
    ensures HolidayScan(2024, "Invalid", 0) == Failure(UnsupportedCalendarTradition)
  {
    HolidayFacts(2024, "Invalid");
  }
}
