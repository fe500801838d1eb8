/** How the month-by-month season decision carves up a year, stated in terms
    of the feasts alone, and exactly when the season week of a date exists. */
module SeasonFacts {
  import opened Wrappers
  import opened Civil
  import opened Calendar
  import opened CalendarFacts

  /** Lent is exactly Ash Wednesday up to, not including, Holy Thursday; the
      February check on Ash Wednesday's month never changes the outcome. */
  lemma LentInterval(d: Date)
    requires ValidDate(d) && d.year >= 0
    ensures RomanSeason(d) == Lent <==>
      DayNumber(AshWednesday(d.year)) <= DayNumber(d) < DayNumber(HolyThursday(d.year))
  {
    if d.month == 2 {
      LentInFebruary(d);
    } else if 3 <= d.month <= 5 {
      FeastBounds(d.year);
    } else {
      LentOutsideSpring(d);
    }
  }

  lemma LentInFebruary(d: Date)
    requires ValidDate(d) && d.year >= 0 && d.month == 2
    ensures RomanSeason(d) == Lent <==>
      DayNumber(AshWednesday(d.year)) <= DayNumber(d) < DayNumber(HolyThursday(d.year))
  {
    var y := d.year;
    FeastBounds(y);
    AshWednesdayMonth(y);
    assert DayNumber(d) < On(y, 3, 1);
  }

  lemma LentOutsideSpring(d: Date)
    requires ValidDate(d) && d.year >= 0 && (d.month == 1 || d.month >= 6)
    ensures RomanSeason(d) != Lent
    ensures !(DayNumber(AshWednesday(d.year)) <= DayNumber(d) < DayNumber(HolyThursday(d.year)))
  {
    var y := d.year;
    FeastBounds(y);
    if d.month == 1 {
      DayNumberOrder(d, Date(y, 2, 1));
    } else {
      DayNumberOrder(Date(y, 6, 1), d);
    }
  }

  /** The Triduum is exactly Holy Thursday up to, not including, Easter Sunday. */
  lemma TriduumInterval(d: Date)
    requires ValidDate(d) && d.year >= 0
    ensures RomanSeason(d) == Triduum <==>
      DayNumber(HolyThursday(d.year)) <= DayNumber(d) < DayNumber(EasterDate(d.year))
  {
    var y := d.year;
    FeastBounds(y);
    if d.month < 3 {
      DayNumberOrder(d, Date(y, 3, 1));
    } else if d.month > 5 {
      DayNumberOrder(Date(y, 6, 1), d);
    }
  }

  /** Easter season runs from Easter Sunday through Pentecost inclusive, but
      only within March to May: a June Pentecost and the June days before it
      fall outside it. */
  lemma EasterInterval(d: Date)
    requires ValidDate(d) && d.year >= 0
    ensures RomanSeason(d) == Easter <==>
      && DayNumber(EasterDate(d.year)) <= DayNumber(d) <= DayNumber(Pentecost(d.year))
      && d.month <= 5
  {
    FeastBounds(d.year);
  }

  /** Christmastide is December 25 to 31 and January 1 to 5. */
  lemma ChristmastideDays(d: Date)
    requires ValidDate(d) && d.year >= 0
    ensures RomanSeason(d) == Christmastide <==>
      (d.month == 12 && d.day >= 25) || (d.month == 1 && d.day < 6)
  {
    FeastBounds(d.year);
  }

  /** Advent is the Advent Sunday through November 30, and all of December
      before the 25th, even the days before a December Advent Sunday. */
  lemma AdventDays(d: Date)
    requires ValidDate(d) && d.year >= 0
    ensures RomanSeason(d) == Advent <==>
      || (d.month == 11 && DayNumber(d) >= DayNumber(SundayOnOrAfterNov27(d.year)))
      || (d.month == 12 && d.day < 25)
  {
    FeastBounds(d.year);
  }

  /** Epiphanytide is January 6 up to, not including, Ash Wednesday. */
  lemma EpiphanytideInterval(d: Date)
    requires ValidDate(d) && d.year >= 0
    ensures RomanSeason(d) == Epiphanytide <==>
      On(d.year, 1, 6) <= DayNumber(d) < DayNumber(AshWednesday(d.year))
  {
    FeastBounds(d.year);
    AshWednesdayMonth(d.year);
    DayNumberOrder(d, Date(d.year, 1, 6));
    DayNumberOrder(Date(d.year, 3, 12), d);
  }

  /** Ordinary Time is every day after Pentecost and before the Advent Sunday
      outside December, plus the June days up to a June Pentecost. */
  lemma OrdinaryDays(d: Date)
    requires ValidDate(d) && d.year >= 0
    ensures RomanSeason(d) == Ordinary <==>
      || (DayNumber(Pentecost(d.year)) < DayNumber(d) < DayNumber(SundayOnOrAfterNov27(d.year)) && d.month != 12)
      || (d.month == 6 && DayNumber(d) <= DayNumber(Pentecost(d.year)))
  {
    var y := d.year;
    FeastBounds(y);
    if d.month < 3 {
      DayNumberOrder(d, Date(y, 3, 1));
    } else if d.month < 6 {
      DayNumberOrder(d, Date(y, 6, 1));
    } else if d.month < 11 {
      OrdinaryInSummer(d);
    } else if d.month == 11 {
      DayNumberOrder(Date(y, 11, 1), d);
    }
  }

  /** From June to October every day is Ordinary Time: after Pentecost, or
      in June on or before it, and before Advent. */
  lemma OrdinaryInSummer(d: Date)
    requires ValidDate(d) && d.year >= 0 && 6 <= d.month <= 10
    ensures || (DayNumber(Pentecost(d.year)) < DayNumber(d) < DayNumber(SundayOnOrAfterNov27(d.year)))
            || (d.month == 6 && DayNumber(d) <= DayNumber(Pentecost(d.year)))
  {
    var y := d.year;
    FeastBounds(y);
    DayNumberOrder(d, Date(y, 11, 1));
    if d.month > 6 {
      DayNumberOrder(Date(y, 7, 1), d);
    }
  }

  /** The season week of a date exists (the date is on or after the start its
      season's rule computes) except in two windows: June days up to a June
      Pentecost, classified Ordinary while Ordinary Time starts the day after
      Pentecost, and December days before a December Advent Sunday,
      classified Advent while Advent starts on that Sunday. */
  lemma SeasonStartReached(d: Date)
    requires ValidDate(d) && d.year >= 0
    ensures DayNumber(d) < DayNumber(SeasonStart(d, RomanSeason(d))) <==> StartWindow(d)
  {
    match RomanSeason(d)
    case Advent => AdventStartReached(d);
    case Christmastide => ChristmastideStartReached(d);
    case Epiphanytide => DayNumberOrder(Date(d.year, 1, 6), d);
    case Lent => LentStartReached(d);
    case Triduum => TriduumStartReached(d);
    case Easter => EasterStartReached(d);
    case Ordinary => OrdinaryStartReached(d);
  }

  /** An Advent date is before Advent Sunday exactly in the December window. */
  lemma AdventStartReached(d: Date)
    requires ValidDate(d) && d.year >= 0 && RomanSeason(d) == Advent
    ensures DayNumber(d) < DayNumber(SeasonStart(d, Advent)) <==> StartWindow(d)
  {
    FeastBounds(d.year);
  }

  /** Lent, the Triduum and Easter start on the feast that opens them, and
      their dates, all from February to May, are never in a window. */
  lemma LentStartReached(d: Date)
    requires ValidDate(d) && d.year >= 0 && RomanSeason(d) == Lent
    ensures DayNumber(d) >= DayNumber(SeasonStart(d, Lent)) && !StartWindow(d)
  {
    if d.month == 2 {
      assert DayNumber(d) >= DayNumber(AshWednesday(d.year));
    } else {
      assert 3 <= d.month <= 5;
    }
  }

  lemma TriduumStartReached(d: Date)
    requires ValidDate(d) && d.year >= 0 && RomanSeason(d) == Triduum
    ensures DayNumber(d) >= DayNumber(SeasonStart(d, Triduum)) && !StartWindow(d)
  {
    assert 3 <= d.month <= 5;
  }

  lemma EasterStartReached(d: Date)
    requires ValidDate(d) && d.year >= 0 && RomanSeason(d) == Easter
    ensures DayNumber(d) >= DayNumber(SeasonStart(d, Easter)) && !StartWindow(d)
  {
    assert 3 <= d.month <= 5;
  }

  /** The two windows in which a date precedes its own season's start. */
  predicate StartWindow(d: Date)
    requires ValidDate(d)
  {
    || (d.month == 6 && DayNumber(d) <= DayNumber(Pentecost(d.year)))
    || (d.month == 12 && d.day < 25 && DayNumber(d) < DayNumber(SundayOnOrAfterNov27(d.year)))
  }

  lemma ChristmastideStartReached(d: Date)
    requires ValidDate(d) && d.year >= 0 && RomanSeason(d) == Christmastide
    ensures DayNumber(d) >= DayNumber(SeasonStart(d, Christmastide)) && !StartWindow(d)
  {
    var y := d.year;
    FeastBounds(y);
    if d.month == 12 {
      DayNumberOrder(Date(y, 12, 25), d);
    } else {
      DayNumberInYear(Date(y - 1, 12, 25));
      DayNumberInYear(d);
    }
  }

  lemma OrdinaryStartReached(d: Date)
    requires ValidDate(d) && d.year >= 0 && RomanSeason(d) == Ordinary
    ensures DayNumber(d) < DayNumber(SeasonStart(d, Ordinary)) <==> StartWindow(d)
  {
    var y := d.year;
    FeastBounds(y);
    if d.month != 6 {
      DayNumberOrder(d, Date(y, 5, 10));
      DayNumberOrder(Date(y, 6, 14), d);
    }
  }

  /** The months each season can occupy: Advent in November and December,
      Christmastide in December and January, the Easter cycle from February
      to May, Epiphanytide from January to March, and June to October only
      Ordinary Time. */
  lemma SeasonMonths(d: Date)
    requires ValidDate(d)
    ensures RomanSeason(d) == Advent ==> d.month == 11 || d.month == 12
    ensures RomanSeason(d) == Christmastide ==> d.month == 12 || d.month == 1
    ensures RomanSeason(d) == Lent || RomanSeason(d) == Triduum || RomanSeason(d) == Easter ==> 2 <= d.month <= 5
    ensures d.year >= 0 && RomanSeason(d) == Epiphanytide ==> 1 <= d.month <= 3
    ensures 6 <= d.month <= 10 ==> RomanSeason(d) == Ordinary
  {
    if d.month == 11 || d.month == 12 {
      assert RomanSeason(d) == Advent || RomanSeason(d) == Christmastide || RomanSeason(d) == Ordinary;
    } else if d.month == 1 {
      assert RomanSeason(d) == Christmastide || RomanSeason(d) == Epiphanytide;
    } else if 2 <= d.month <= 5 {
      assert RomanSeason(d) != Advent && RomanSeason(d) != Christmastide;
      if 4 <= d.month && d.year >= 0 {
        EpiphanytideEndsInMarch(d);
      }
    } else {
      assert RomanSeason(d) == Ordinary;
    }
  }

  /** An April or May date lies past the latest Ash Wednesday, March 12. */
  lemma EpiphanytideEndsInMarch(d: Date)
    requires ValidDate(d) && d.year >= 0 && 4 <= d.month <= 5
    ensures RomanSeason(d) != Epiphanytide
  {
    FeastBounds(d.year);
    DayNumberOrder(Date(d.year, 3, 12), d);
    assert DayNumber(d) >= DayNumber(AshWednesday(d.year));
  }

  /** The start rule of each season: the Advent Sunday within the week from
      November 27, Christmas Day of the current or previous year, January 6,
      and the days 46 and 3 before Easter, Easter itself and the day after
      Pentecost (50 days after Easter). */
  lemma SeasonStartDates(d: Date)
    requires ValidDate(d)
    ensures var advent := SeasonStart(d, Advent);
      && WeekdayIndex(advent) == 0
      && On(d.year, 11, 27) <= DayNumber(advent) <= On(d.year, 11, 27) + 6
    ensures SeasonStart(d, Christmastide) == Date(if d.month == 12 then d.year else d.year - 1, 12, 25)
    ensures SeasonStart(d, Epiphanytide) == Date(d.year, 1, 6)
    ensures var easter := DayNumber(EasterDate(d.year));
      && DayNumber(SeasonStart(d, Lent)) == easter - 46
      && DayNumber(SeasonStart(d, Triduum)) == easter - 3
      && SeasonStart(d, Easter) == EasterDate(d.year)
      && DayNumber(SeasonStart(d, Ordinary)) == easter + 50
  {
  }

  /** The start a season's rule computes for a date lies in that same season. */
  lemma StartLiesInSeason(d: Date)
    requires ValidDate(d) && d.year >= 0
    ensures RomanSeason(SeasonStart(d, RomanSeason(d))) == RomanSeason(d)
  {
    match RomanSeason(d)
    case Advent => AdventSundayIsAdvent(d.year);
    case Christmastide =>
    case Epiphanytide =>
    case Lent => AshWednesdayIsLent(d.year);
    case Triduum => HolyThursdayIsTriduum(d.year);
    case Easter => EasterSundayIsEaster(d.year);
    case Ordinary => DayAfterPentecostIsOrdinary(d.year);
  }

  /** The Advent Sunday is classified Advent. */
  lemma AdventSundayIsAdvent(y: int)
    requires y >= 0
    ensures RomanSeason(SundayOnOrAfterNov27(y)) == Advent
  {
    var a := SundayOnOrAfterNov27(y);
    FeastBounds(y);
    MonthOfDayNumberEither(a, y, 11, 12);
    AdventDays(a);
  }

  /** Ash Wednesday opens Lent. */
  lemma AshWednesdayIsLent(y: int)
    requires y >= 0
    ensures RomanSeason(AshWednesday(y)) == Lent
  {
    FeastBounds(y);
    AshWednesdayMonth(y);
    LentInterval(AshWednesday(y));
  }

  /** Holy Thursday and Good Friday fall in the Triduum. */
  lemma HolyThursdayIsTriduum(y: int)
    requires y >= 0
    ensures RomanSeason(HolyThursday(y)) == Triduum
    ensures RomanSeason(AddDays(EasterDate(y), -2)) == Triduum
  {
    FeastBounds(y);
    var h := HolyThursday(y);
    var g := AddDays(EasterDate(y), -2);
    MonthOfDayNumberEither(h, y, 3, 4);
    MonthOfDayNumberEither(g, y, 3, 4);
    TriduumInterval(h);
    TriduumInterval(g);
  }

  /** Easter Sunday and Easter Monday fall in Easter season. */
  lemma EasterSundayIsEaster(y: int)
    requires y >= 0
    ensures RomanSeason(EasterDate(y)) == Easter
    ensures RomanSeason(AddDays(EasterDate(y), 1)) == Easter
  {
    FeastBounds(y);
    var e := EasterDate(y);
    var m := AddDays(e, 1);
    EasterInMarchOrApril(y);
    MonthOfDayNumberEither(m, y, 3, 4);
    EasterInterval(e);
    EasterInterval(m);
  }

  /** Pentecost itself is classified Easter exactly when it falls in May. */
  lemma PentecostSeason(y: int)
    requires y >= 0
    ensures RomanSeason(Pentecost(y)) == Easter <==> Pentecost(y).month == 5
    ensures Pentecost(y).month != 5 ==> RomanSeason(Pentecost(y)) == Ordinary
  {
    FeastBounds(y);
    var p := Pentecost(y);
    MonthOfDayNumberEither(p, y, 5, 6);
    EasterInterval(p);
  }

  /** The day after Pentecost opens Ordinary Time. */
  lemma DayAfterPentecostIsOrdinary(y: int)
    requires y >= 0
    ensures RomanSeason(AddDays(Pentecost(y), 1)) == Ordinary
  {
    FeastBounds(y);
    var o := AddDays(Pentecost(y), 1);
    MonthOfDayNumberEither(o, y, 5, 6);
    OrdinaryDays(o);
  }

  /** A valid date whose day number lies within months `m1`..`m2` of year `y`
      belongs to one of those months of year `y`. */
  lemma MonthOfDayNumberEither(d: Date, y: int, m1: int, m2: int)
    requires ValidDate(d) && 1 <= m1 <= m2 <= 12
    requires On(y, m1, 1) <= DayNumber(d) <= On(y, m2, DaysInMonth(y, m2))
    ensures d.year == y && m1 <= d.month <= m2
  {
    DayNumberOrder(Date(y, m1, 1), d);
    DayNumberOrder(d, Date(y, m2, DaysInMonth(y, m2)));
  }

  /** The key `GetRomanDay` returns for a date whose season week exists. */
  predicate RomanDayIs(date: string, season: Season, week: int, weekday: Weekday) {
    && ParseDate(date).Some?
    && var p := ParseDate(date).value;
    && RomanSeason(p) == season
    && week >= 1
    && 7 * (week - 1) <= DayNumber(p) - DayNumber(SeasonStart(p, season)) < 7 * week
    && WeekdayIndex(p) == WeekdayIndexOf(weekday)
  }

  /** `GetRomanDay` returns a given day key exactly when the date parses and
      the key's season, week and weekday are the ones the date's season rule,
      season start and weekday index determine. */
  lemma RomanDayExactly(date: string, season: Season, week: int, weekday: Weekday)
    ensures GetRomanDay(date, Roman) == Success(DayKey(date, Roman, season, week, weekday)) <==>
            RomanDayIs(date, season, week, weekday)
  {
    var r := GetRomanDay(date, Roman);
    if RomanDayIs(date, season, week, weekday) {
      var p := ParseDate(date).value;
      assert r.Success?;
      WeekBlockUnique(DayNumber(p) - DayNumber(SeasonStart(p, season)), week, r.value.seasonWeek);
      WeekdayIndexOfInjective(r.value.weekday, weekday);
    }
  }

  lemma WeekBlockUnique(days: int, w1: int, w2: int)
    requires 7 * (w1 - 1) <= days < 7 * w1
    requires 7 * (w2 - 1) <= days < 7 * w2
    ensures w1 == w2
  {
  }

  lemma WeekdayIndexOfInjective(a: Weekday, b: Weekday)
    ensures WeekdayIndexOf(a) == WeekdayIndexOf(b) <==> a == b
  {
  }

  /** For a date that parses, `GetRomanDay` fails exactly in the two windows
      where the date precedes its own season's start, and then with a
      validation error; otherwise it returns the date's season. */
  lemma RomanDayFailsExactly(date: string)
    requires ParseDate(date).Some?
    ensures GetRomanDay(date, Roman).Failure? <==> StartWindow(ParseDate(date).value)
    ensures GetRomanDay(date, Roman).Failure? ==> GetRomanDay(date, Roman).error == ValidationFailed
    ensures GetRomanDay(date, Roman).Success? ==>
      GetRomanDay(date, Roman).value.season == RomanSeason(ParseDate(date).value)
  {
    SeasonStartReached(ParseDate(date).value);
  }
}
