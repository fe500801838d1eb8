/** The Roman liturgical calendar engine of internal/calendar: Easter, the
    movable feasts offset from it, the season of a date, the start of that
    season, the week within the season, the weekday, and the `DayKey` that
    combines them. Date arguments arrive as `YYYY-MM-DD` text, as in the source. */
module Calendar {
  import opened Wrappers
  import opened Decimal
  import opened Civil

  /** The sentinel errors of internal/calendar/errors.go. */
  datatype CalendarError = ParseDateFailed | UnsupportedCalendarTradition | ValidationFailed

  /** The one supported tradition, `RomanCalendar`. */
  const Roman: string := "Roman"

  datatype Season = Advent | Christmastide | Epiphanytide | Lent | Triduum | Easter | Ordinary

  /** The string value of each `LiturgicalSeason` constant. */
  function SeasonName(s: Season): string {
    match s
    case Advent => "Advent"
    case Christmastide => "Christmastide"
    case Epiphanytide => "Epiphanytide"
    case Lent => "Lent"
    case Triduum => "Paschal Triduum"
    case Easter => "Easter"
    case Ordinary => "Ordinary Time"
  }

  datatype Weekday = Sunday | Monday | Tuesday | Wednesday | Thursday | Friday | Saturday

  /** The string value of each `Weekday` constant. */
  function WeekdayName(w: Weekday): string {
    match w
    case Sunday => "Sunday"
    case Monday => "Monday"
    case Tuesday => "Tuesday"
    case Wednesday => "Wednesday"
    case Thursday => "Thursday"
    case Friday => "Friday"
    case Saturday => "Saturday"
  }

  /** Go's `time.Weekday` numbering: 0 is Sunday. */
  function WeekdayOfIndex(i: int): Weekday
    requires 0 <= i < 7
  {
    if i == 0 then Sunday else if i == 1 then Monday else if i == 2 then Tuesday
    else if i == 3 then Wednesday else if i == 4 then Thursday else if i == 5 then Friday
    else Saturday
  }

  function WeekdayIndexOf(w: Weekday): int {
    match w
    case Sunday => 0
    case Monday => 1
    case Tuesday => 2
    case Wednesday => 3
    case Thursday => 4
    case Friday => 5
    case Saturday => 6
  }

  datatype DayKey = DayKey(date: string, tradition: string, season: Season, seasonWeek: int, weekday: Weekday)

  /** The validation tags on `DayKey`: an ISO 8601 date that `time.Parse`
      accepts, non-empty tradition, season and weekday, and a week of at least 1. */
  predicate ValidDayKey(k: DayKey) {
    && ParseDate(k.date).Some?
    && k.tradition != ""
    && SeasonName(k.season) != ""
    && k.seasonWeek >= 1
    && WeekdayName(k.weekday) != ""
  }

  /** The season and weekday tags hold of every key, since no constant has
      an empty name; and the date tag admits only canonical texts: the date
      of a valid key formats back to the very text it was parsed from. */
  lemma ValidDayKeyFacts(k: DayKey)
    ensures ValidDayKey(k) <==> ParseDate(k.date).Some? && k.tradition != "" && k.seasonWeek >= 1
    ensures ValidDayKey(k) ==> FormatDate(ParseDate(k.date).value) == k.date
  {
    NamesNotEmpty(k.season, k.weekday);
    if ParseDate(k.date).Some? {
      ParseThenFormat(k.date);
    }
  }

  lemma NamesNotEmpty(s: Season, w: Weekday)
    ensures SeasonName(s) != "" && WeekdayName(w) != ""
  {
  }

  // ---------------------------------------------------------------------------
  // Go integer division

  /** Go's `/` on `int`: the quotient truncated toward zero. */
  function GoQuo(a: int, b: int): int
    requires b > 0
  {
    if a >= 0 then a / b else -((-a) / b)
  }

  /** Go's `%` on `int`: the remainder takes the sign of the dividend. */
  function GoRem(a: int, b: int): (r: int)
    requires b > 0
    ensures -b < r < b
    ensures a >= 0 ==> r == a % b
  {
    a - b * GoQuo(a, b)
  }

  // ---------------------------------------------------------------------------
  // Easter

  /** The intermediate values of the anonymous Gregorian algorithm. */
  datatype GregorianTerms = GregorianTerms(a: int, h: int, l: int, m: int)

  function Gregorian(year: int): (t: GregorianTerms)
    ensures year >= 0 ==> 0 <= t.a <= 18 && 0 <= t.h <= 29 && 0 <= t.l <= 6 && 0 <= t.m <= 1
    ensures year >= 0 ==> t.m == (t.a + 11 * t.h + 22 * t.l) / 451
  {
    var a := GoRem(year, 19);
    var b := GoQuo(year, 100);
    var c := GoRem(year, 100);
    var d := GoQuo(b, 4);
    var e := GoRem(b, 4);
    var f := GoQuo(b + 8, 25);
    var g := GoQuo(b - f + 1, 3);
    var h := GoRem(19 * a + b - d - g + 15, 30);
    var i := GoQuo(c, 4);
    var k := GoRem(c, 4);
    var l := GoRem(32 + 2 * e + 2 * i - h - k, 7);
    var m := GoQuo(a + 11 * h + 22 * l, 451);
    GregorianTerms(a, h, l, m)
  }

  /** The intermediate values of the Julian formula used before 1583. */
  datatype JulianTerms = JulianTerms(d: int, e: int)

  function Julian(year: int): (t: JulianTerms)
    ensures -30 < t.d < 30 && -7 < t.e < 7
    ensures year >= 0 ==> 0 <= t.d <= 29 && 0 <= t.e <= 6
  {
    var a := GoRem(year, 19);
    var b := GoRem(year, 7);
    var c := GoRem(year, 4);
    var d := GoRem(19 * a + 15, 30);
    var e := GoRem(2 * c + 4 * b - d + 34, 7);
    JulianTerms(d, e)
  }

  /** `getEasterGregorian`'s `r`: Easter Sunday as a day of March (32 is April 1). */
  function EasterOffset(year: int): (r: int)
    ensures year >= 1583 ==> 22 <= r <= 56
    ensures 0 <= year < 1583 ==> 22 <= r <= 57
    ensures -13 <= r <= 57
  {
    if year >= 1583 then
      var t := Gregorian(year);
      22 + t.h + t.l - 7 * t.m
    else
      var t := Julian(year);
      22 + t.d + t.e
  }

  /** `time.Date(year, time.March, r, ...)`. */
  function EasterDate(year: int): (e: Date)
    ensures ValidDate(e)
    ensures DayNumber(e) == DayNumber(Date(year, 3, 1)) + EasterOffset(year) - 1
  {
    Normalize(year, 3, EasterOffset(year))
  }

  /** Easter minus 46 days. */
  function AshWednesday(year: int): Date {
    AddDays(EasterDate(year), -46)
  }

  /** Easter minus 3 days. */
  function HolyThursday(year: int): Date {
    AddDays(EasterDate(year), -3)
  }

  /** Easter plus 49 days. */
  function Pentecost(year: int): Date {
    AddDays(EasterDate(year), 49)
  }

  /** The first Sunday on or after November 27, which opens Advent. */
  function SundayOnOrAfterNov27(year: int): (s: Date)
    ensures ValidDate(s) && WeekdayIndex(s) == 0
    ensures DayNumber(Date(year, 11, 27)) <= DayNumber(s) <= DayNumber(Date(year, 11, 27)) + 6
  {
    var nov27 := Date(year, 11, 27);
    var wd := WeekdayIndex(nov27);
    if wd != 0 then
      var shift := (0 - wd + 7) % 7;
      assert shift == 7 - wd;
      WeekdayAdvances(nov27, shift);
      AddDays(nov27, shift)
    else
      nov27
  }

  /** A day number that falls on a Sunday. */
  predicate IsSundayNumber(n: int) {
    (n + 6) % 7 == 0
  }

  /** No Sunday lies between November 27 and the computed Advent Sunday: it is
      the first Sunday on or after November 27. */
  lemma AdventSundayIsFirst(year: int)
    ensures IsSundayNumber(DayNumber(SundayOnOrAfterNov27(year)))
    ensures forall k :: DayNumber(Date(year, 11, 27)) <= k < DayNumber(SundayOnOrAfterNov27(year)) ==> !IsSundayNumber(k)
  {
    var s := SundayOnOrAfterNov27(year);
    assert WeekdayIndex(s) == 0;
    NoSundayInGap(DayNumber(Date(year, 11, 27)), DayNumber(s));
  }

  /** A Sunday `s` at most six days after `n` is the first Sunday from `n` on. */
  lemma NoSundayInGap(n: int, s: int)
    requires n <= s <= n + 6 && IsSundayNumber(s)
    ensures forall k :: n <= k < s ==> !IsSundayNumber(k)
  {
    var q := (s + 6) / 7;
    assert s + 6 == 7 * q;
    forall k | n <= k < s
      ensures !IsSundayNumber(k)
    {
      assert 0 < 7 - (s - k) < 7;
      ModOfShift(q - 1, 7 - (s - k));
      assert k + 6 == 7 * (q - 1) + (7 - (s - k));
    }
  }

  // ---------------------------------------------------------------------------
  // Season, season start, week

  /** `getRomanSeason` on a parsed date: a decision by calendar month, comparing
      the date with the feasts of its own year. */
  function RomanSeason(d: Date): Season
    requires ValidDate(d)
  {
    var n := DayNumber(d);
    var easterDay := DayNumber(EasterDate(d.year));
    var ashWednesday := AshWednesday(d.year);
    var holyThursday := DayNumber(HolyThursday(d.year));
    var pentecost := DayNumber(Pentecost(d.year));
    var sundayAfterNov27 := DayNumber(SundayOnOrAfterNov27(d.year));
    if d.month == 11 then
      if n >= sundayAfterNov27 then Advent else Ordinary
    else if d.month == 12 then
      if d.day >= 25 then Christmastide else Advent
    else if d.month == 1 then
      if d.day < 6 then Christmastide else Epiphanytide
    else if d.month == 2 then
      if ashWednesday.month == 2 && n >= DayNumber(ashWednesday) then Lent else Epiphanytide
    else if 3 <= d.month <= 5 then
      if n < DayNumber(ashWednesday) then Epiphanytide
      else if n >= DayNumber(ashWednesday) && n < holyThursday then Lent
      else if n >= holyThursday && n < easterDay then Triduum
      else if n >= easterDay && n <= pentecost then Easter
      else Ordinary
    else
      Ordinary
  }

  /** `getRomanSeasonStartDate` on a parsed date: one fixed rule per season. */
  function SeasonStart(d: Date, s: Season): (start: Date)
    requires ValidDate(d)
    ensures ValidDate(start)
  {
    match s
    case Advent => SundayOnOrAfterNov27(d.year)
    case Christmastide => if d.month == 12 then Date(d.year, 12, 25) else Date(d.year - 1, 12, 25)
    case Epiphanytide => Date(d.year, 1, 6)
    case Lent => AshWednesday(d.year)
    case Triduum => HolyThursday(d.year)
    case Easter => EasterDate(d.year)
    case Ordinary => AddDays(Pentecost(d.year), 1)
  }

  /** `GetRomanSeason`. */
  function GetRomanSeason(date: string, tradition: string): (r: Result<Season, CalendarError>)
    ensures tradition != Roman ==> r == Failure(UnsupportedCalendarTradition)
    ensures tradition == Roman && ParseDate(date).None? ==> r == Failure(ParseDateFailed)
    ensures r.Success? ==> ParseDate(date).Some? && r.value == RomanSeason(ParseDate(date).value)
  {
    if tradition == Roman then
      match ParseDate(date)
      case None => Failure(ParseDateFailed)
      case Some(parsed) => Success(RomanSeason(parsed))
    else
      Failure(UnsupportedCalendarTradition)
  }

  /** `getRomanSeasonStartDate`: the tradition is checked before the date. */
  function GetRomanSeasonStartDate(date: string, season: Season, tradition: string): (r: Result<Date, CalendarError>)
    ensures tradition != Roman ==> r == Failure(UnsupportedCalendarTradition)
    ensures tradition == Roman && ParseDate(date).None? ==> r == Failure(ParseDateFailed)
    ensures r.Success? ==> ParseDate(date).Some? && r.value == SeasonStart(ParseDate(date).value, season)
  {
    if tradition != Roman then Failure(UnsupportedCalendarTradition)
    else
      match ParseDate(date)
      case None => Failure(ParseDateFailed)
      case Some(parsed) => Success(SeasonStart(parsed, season))
  }

  /** `GetRomanSeasonWeek`: the 1-based number of the 7-day block, counted from
      the season's start, that contains the date; a date before the start is
      a validation failure. */
  function GetRomanSeasonWeek(date: string, season: Season, tradition: string): (r: Result<int, CalendarError>)
    ensures tradition != Roman ==> r == Failure(UnsupportedCalendarTradition)
    ensures tradition == Roman && ParseDate(date).None? ==> r == Failure(ParseDateFailed)
    ensures tradition == Roman && ParseDate(date).Some? ==>
      var p := ParseDate(date).value;
      var days := DayNumber(p) - DayNumber(SeasonStart(p, season));
      && (r.Failure? <==> days < 0)
      && (r.Failure? ==> r.error == ValidationFailed)
      && (r.Success? ==> r.value >= 1 && 7 * (r.value - 1) <= days < 7 * r.value)
  {
    var seasonStartDate :- GetRomanSeasonStartDate(date, season, tradition);
    match ParseDate(date)
    case None => Failure(ParseDateFailed)
    case Some(parsed) =>
      var daysSinceSeasonStart := DayNumber(parsed) - DayNumber(seasonStartDate);
      if daysSinceSeasonStart < 0 then Failure(ValidationFailed)
      else if daysSinceSeasonStart == 0 then Success(1)
      else Success(1 + daysSinceSeasonStart / 7)
  }

  /** `GetRomanWeekday`. */
  function GetRomanWeekday(date: string): (r: Result<Weekday, CalendarError>)
    ensures ParseDate(date).None? ==> r == Failure(ParseDateFailed)
    ensures ParseDate(date).Some? ==> r.Success? && WeekdayIndexOf(r.value) == WeekdayIndex(ParseDate(date).value)
  {
    match ParseDate(date)
    case None => Failure(ParseDateFailed)
    case Some(parsed) => Success(WeekdayOfIndex(WeekdayIndex(parsed)))
  }

  /** `GetRomanDay`: the tradition check, then season, season week and weekday
      of the date, in that order, the first failure aborting. */
  function GetRomanDay(date: string, tradition: string): (r: Result<DayKey, CalendarError>)
    ensures tradition != Roman ==> r == Failure(UnsupportedCalendarTradition)
    ensures tradition == Roman && ParseDate(date).None? ==> r == Failure(ParseDateFailed)
    ensures tradition == Roman && ParseDate(date).Some? ==>
      var p := ParseDate(date).value;
      var start := SeasonStart(p, RomanSeason(p));
      && (r.Failure? <==> DayNumber(p) < DayNumber(start))
      && (r.Failure? ==> r.error == ValidationFailed)
      && (r.Success? ==>
            && r.value.season == RomanSeason(p)
            && WeekdayIndexOf(r.value.weekday) == WeekdayIndex(p)
            && 7 * (r.value.seasonWeek - 1) <= DayNumber(p) - DayNumber(start) < 7 * r.value.seasonWeek)
    ensures r.Success? ==> r.value.date == date && r.value.tradition == Roman && ValidDayKey(r.value)
  {
    if tradition != Roman then Failure(UnsupportedCalendarTradition)
    else
      match GetRomanSeason(date, tradition)
      case Failure(e) => Failure(e)
      case Success(season) =>
        match GetRomanSeasonWeek(date, season, tradition)
        case Failure(e) => Failure(e)
        case Success(seasonWeek) =>
          match GetRomanWeekday(date)
          case Failure(e) => Failure(e)
          case Success(weekday) => Success(DayKey(date, tradition, season, seasonWeek, weekday))
  }
}
