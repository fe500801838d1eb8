/** The two enumerations of internal/calendar/roman.go built on `GetRomanDay`:
    `GenerateRomanCalendar`, one day key per date of a year, and `Holidays`,
    the day keys of the six movable feasts around Easter. */
module Generation {
  import opened Wrappers
  import opened Decimal
  import opened Civil
  import opened Calendar
  import opened CalendarFacts
  import opened SeasonFacts

  // ---------------------------------------------------------------------------
  // Candidate dates

  /** The month texts the enumeration walks through, January first. */
  const MonthTexts: seq<string> := ["01", "02", "03", "04", "05", "06", "07", "08", "09", "10", "11", "12"]

  /** The text tried for day `day` of month `m`: the year text exactly as
      given, a dash, the month text, a dash and the `padZero`ed day. */
  function Candidate(year: string, m: int, day: nat): string
    requires 1 <= m <= 12
  {
    year + "-" + MonthTexts[m - 1] + "-" + PadZero(day)
  }

  /** A year text that can head a parsable date: exactly four digits. */
  predicate IsYearText(year: string) {
    |year| == 4 && AllDigits(year)
  }

  lemma MonthTextIsPadded(m: int)
    requires 1 <= m <= 12
    ensures MonthTexts[m - 1] == PadZero(m)
  {
    PadZeroTwoDigits(m);
    TwoDigitText(m);
  }

  /** A candidate parses exactly when the year text is four digits and the
      day exists in that month of that year, and then to that very date. */
  lemma CandidateParse(year: string, m: int, day: nat)
    requires 1 <= m <= 12 && 1 <= day <= 31
    ensures ParseDate(Candidate(year, m, day)).Some? <==>
      IsYearText(year) && day <= DaysInMonth(DigitsValue(year), m)
    ensures ParseDate(Candidate(year, m, day)).Some? ==>
      IsYearText(year) && ParseDate(Candidate(year, m, day)).value == Date(DigitsValue(year), m, day)
  {
    var c := Candidate(year, m, day);
    MonthTextIsPadded(m);
    PadZeroTwoDigits(m);
    PadZeroTwoDigits(day);
    assert |c| == |year| + 6;
    if |year| == 4 {
      assert c[0..4] == year;
      assert c[4] == '-' && c[7] == '-';
      assert c[5..7] == PadZero(m);
      assert c[8..10] == PadZero(day);
    }
  }

  // ---------------------------------------------------------------------------
  // GenerateRomanCalendar

  /** Keys already collected in front of the outcome of the rest of the walk;
      a failure of the rest discards them. */
  function Prepend(acc: seq<DayKey>, r: Result<seq<DayKey>, CalendarError>): Result<seq<DayKey>, CalendarError> {
    match r
    case Failure(e) => Failure(e)
    case Success(keys) => Success(acc + keys)
  }

  /** The walk over the candidates from (`m`, `day`) on, in month-then-day
      order: a candidate that does not parse is skipped, the first failing
      `GetRomanDay` or key validation aborts the whole walk, and the keys are
      kept in candidate order. Month 13 and day 32 mark the ends of the loops. */
  function Scan(year: string, tradition: string, m: int, day: int): Result<seq<DayKey>, CalendarError>
    requires 1 <= m <= 13 && 1 <= day <= 32
    decreases 13 - m, 32 - day
  {
    if m == 13 then Success([])
    else if day == 32 then Scan(year, tradition, m + 1, 1)
    else
      var date := Candidate(year, m, day);
      if ParseDate(date).None? then Scan(year, tradition, m, day + 1)
      else
        match GetRomanDay(date, tradition)
        case Failure(e) => Failure(e)
        case Success(key) =>
          if !ValidDayKey(key) then Failure(ValidationFailed)
          else Prepend([key], Scan(year, tradition, m, day + 1))
  }

  /** A key whose date text is the date with day number `n`. */
  predicate DayAt(k: DayKey, n: int) {
    ParseDate(k.date).Some? && DayNumber(ParseDate(k.date).value) == n
  }

  /** A key that is exactly what `GetRomanDay` returns for its own date. */
  predicate IsRomanKey(k: DayKey) {
    GetRomanDay(k.date, Roman) == Success(k)
  }

  /** Some date of year `y`, on or after day number `n`, has no season week. */
  ghost predicate WindowFrom(y: int, n: int) {
    exists d :: ValidDate(d) && d.year == y && n <= DayNumber(d) && StartWindow(d)
  }

  /** A year in which every date has its season week: Pentecost falls in May
      and Advent begins no later than December 1. */
  predicate CleanYear(y: int) {
    DayNumber(Pentecost(y)) < On(y, 6, 1) && DayNumber(SundayOnOrAfterNov27(y)) <= On(y, 12, 1)
  }

  /** The day number at which the walk from (`m`, `day`) resumes in year `y`:
      days past the end of a month resume at the first of the next month. */
  function ResumeAt(y: int, m: int, day: int): int
    requires 1 <= m <= 13 && 1 <= day <= 32
  {
    if m == 13 then DaysBeforeYear(y + 1)
    else
      var last := DaysInMonth(y, m);
      DaysBeforeYear(y) + DaysBeforeMonth(y, m) + (if day <= last then day else last + 1) - 1
  }

  /** What the Roman walk over year `y` yields: the keys of all its days in
      order when every day has its season week, a validation failure otherwise. */
  ghost predicate YearWalk(y: int, r: Result<seq<DayKey>, CalendarError>) {
    && (r.Success? <==> CleanYear(y))
    && (r.Failure? ==> r.error == ValidationFailed)
    && (r.Success? ==>
          && |r.value| == YearLength(y)
          && (forall i :: 0 <= i < |r.value| ==> DayAt(r.value[i], DaysBeforeYear(y) + i))
          && (forall k :: k in r.value ==> IsRomanKey(k)))
  }

  /** `GenerateRomanCalendar`: nothing for a year text that is not four
      digits, an unsupported-tradition failure for any other tradition, and
      for the Roman tradition the keys of every day of the year in order, or
      a validation failure and no keys at all when some day has no season week. */
  method GenerateRomanCalendar(year: string, tradition: string) returns (r: Result<seq<DayKey>, CalendarError>)
    ensures r == Scan(year, tradition, 1, 1)
    ensures !IsYearText(year) ==> r == Success([])
    ensures IsYearText(year) && tradition != Roman ==> r == Failure(UnsupportedCalendarTradition)
    ensures IsYearText(year) && tradition == Roman ==> YearWalk(DigitsValue(year), r)
  {
    r := GenerateLoop(year, tradition);
    GenerateFacts(year, tradition);
  }

  method GenerateLoop(year: string, tradition: string) returns (r: Result<seq<DayKey>, CalendarError>)
    ensures r == Scan(year, tradition, 1, 1)
  {
    var result: seq<DayKey> := [];
    PrependNothing(Scan(year, tradition, 1, 1));
    var m := 1;
    while m <= 12
      invariant 1 <= m <= 13
      invariant Scan(year, tradition, 1, 1) == Prepend(result, Scan(year, tradition, m, 1))
    {
      var day := 1;
      while day <= 31
        invariant 1 <= day <= 32
        invariant Scan(year, tradition, 1, 1) == Prepend(result, Scan(year, tradition, m, day))
      {
        var date := Candidate(year, m, day);
        VisitStep(year, tradition, m, day);
        if ParseDate(date).Some? {
          var dayKey := GetRomanDay(date, tradition);
          if dayKey.Failure? {
            return Failure(dayKey.error);
          }
          if !ValidDayKey(dayKey.value) {
            return Failure(ValidationFailed);
          }
          PrependTwice(result, dayKey.value, Scan(year, tradition, m, day + 1));
          result := result + [dayKey.value];
        }
        day := day + 1;
      }
      MonthEndStep(year, tradition, m);
      m := m + 1;
    }
    assert Scan(year, tradition, 13, 1) == Success([]);
    assert result + [] == result;
    r := Success(result);
  }

  lemma PrependNothing(r: Result<seq<DayKey>, CalendarError>)
    ensures Prepend([], r) == r
  {
    if r.Success? {
      assert [] + r.value == r.value;
    }
  }

  lemma PrependTwice(acc: seq<DayKey>, k: DayKey, r: Result<seq<DayKey>, CalendarError>)
    ensures Prepend(acc, Prepend([k], r)) == Prepend(acc + [k], r)
  {
    if r.Success? {
      assert acc + ([k] + r.value) == (acc + [k]) + r.value;
    }
  }

  /** One candidate of the walk: skipped when it does not parse, otherwise
      its key or the failure that aborts the walk. */
  lemma VisitStep(year: string, tradition: string, m: int, day: int)
    requires 1 <= m <= 12 && 1 <= day <= 31
    ensures var date := Candidate(year, m, day);
      Scan(year, tradition, m, day) ==
        if ParseDate(date).None? then Scan(year, tradition, m, day + 1)
        else if GetRomanDay(date, tradition).Failure? then Failure(GetRomanDay(date, tradition).error)
        else if !ValidDayKey(GetRomanDay(date, tradition).value) then Failure(ValidationFailed)
        else Prepend([GetRomanDay(date, tradition).value], Scan(year, tradition, m, day + 1))
  {
  }

  /** What the walk over a whole year computes, case by case. */
  lemma GenerateFacts(year: string, tradition: string)
    ensures !IsYearText(year) ==> Scan(year, tradition, 1, 1) == Success([])
    ensures IsYearText(year) && tradition != Roman ==> Scan(year, tradition, 1, 1) == Failure(UnsupportedCalendarTradition)
    ensures IsYearText(year) && tradition == Roman ==> YearWalk(DigitsValue(year), Scan(year, tradition, 1, 1))
  {
    if !IsYearText(year) {
      ScanSkipsAll(year, tradition, 1, 1);
    } else if tradition != Roman {
      OtherTraditionFails(year, tradition);
    } else {
      ScanFacts(year, 1, 1);
      WalkOfYear(year);
    }
  }

  /** January 1 of a four-digit year parses, so another tradition fails at once. */
  lemma OtherTraditionFails(year: string, tradition: string)
    requires IsYearText(year) && tradition != Roman
    ensures Scan(year, tradition, 1, 1) == Failure(UnsupportedCalendarTradition)
  {
    CandidateParse(year, 1, 1);
    VisitStep(year, tradition, 1, 1);
  }

  lemma WalkOfYear(year: string)
    requires IsYearText(year) && WalkFromHere(year, 1, 1)
    ensures YearWalk(DigitsValue(year), Scan(year, Roman, 1, 1))
  {
    var y := DigitsValue(year);
    assert ResumeAt(y, 1, 1) == DaysBeforeYear(y);
    CleanYearExactly(y);
    YearStep(y);
  }

  /** A year text that is not four digits makes every candidate unparsable. */
  lemma {:induction false} ScanSkipsAll(year: string, tradition: string, m: int, day: int)
    requires !IsYearText(year) && 1 <= m <= 13 && 1 <= day <= 32
    ensures Scan(year, tradition, m, day) == Success([])
    decreases 13 - m, 32 - day
  {
    if m == 13 {
    } else if day == 32 {
      ScanSkipsAll(year, tradition, m + 1, 1);
      MonthEndStep(year, tradition, m);
    } else {
      ScanSkipsAll(year, tradition, m, day + 1);
      CandidateUnparsable(year, m, day);
      SkipStep(year, tradition, m, day);
    }
  }

  /** Past day 31 the walk moves on to the next month. */
  lemma MonthEndStep(year: string, tradition: string, m: int)
    requires 1 <= m <= 12
    ensures Scan(year, tradition, m, 32) == Scan(year, tradition, m + 1, 1)
  {
  }

  lemma CandidateUnparsable(year: string, m: int, day: int)
    requires !IsYearText(year) && 1 <= m <= 12 && 1 <= day <= 31
    ensures ParseDate(Candidate(year, m, day)).None?
  {
    CandidateParse(year, m, day);
  }

  /** A candidate that does not parse is passed over. */
  lemma SkipStep(year: string, tradition: string, m: int, day: int)
    requires 1 <= m <= 12 && 1 <= day <= 31 && ParseDate(Candidate(year, m, day)).None?
    ensures Scan(year, tradition, m, day) == Scan(year, tradition, m, day + 1)
  {
  }

  /** The Roman walk from (`m`, `day`) on fails exactly when a later date of
      the year has no season week, and otherwise yields the keys of the days
      from `ResumeAt` to the end of the year, one per day. */
  lemma {:induction false} ScanFacts(year: string, m: int, day: int)
    requires IsYearText(year) && 1 <= m <= 13 && 1 <= day <= 32
    ensures WalkFromHere(year, m, day)
    decreases 13 - m, 32 - day
  {
    if m == 13 {
      WalkEnd(year);
    } else if day == 32 {
      ScanFacts(year, m + 1, 1);
      WalkMonthEnd(year, m);
    } else if day > DaysInMonth(DigitsValue(year), m) {
      ScanFacts(year, m, day + 1);
      WalkSkip(year, m, day);
    } else {
      ScanFacts(year, m, day + 1);
      WalkKeep(year, m, day);
    }
  }

  /** `WalkFrom` for the walk over the candidates of `year` from (`m`, `day`) on. */
  ghost predicate WalkFromHere(year: string, m: int, day: int)
    requires IsYearText(year) && 1 <= m <= 13 && 1 <= day <= 32
  {
    WalkFrom(DigitsValue(year), ResumeAt(DigitsValue(year), m, day), Scan(year, Roman, m, day))
  }

  lemma WalkEnd(year: string)
    requires IsYearText(year)
    ensures WalkFromHere(year, 13, 1)
  {
    NoWindowAfterYear(DigitsValue(year));
  }

  lemma WalkMonthEnd(year: string, m: int)
    requires IsYearText(year) && 1 <= m <= 12
    requires WalkFromHere(year, m + 1, 1)
    ensures WalkFromHere(year, m, 32)
  {
    MonthEndStep(year, Roman, m);
    ResumeAtMonthEnd(DigitsValue(year), m);
  }

  lemma WalkSkip(year: string, m: int, day: int)
    requires IsYearText(year) && 1 <= m <= 12 && DaysInMonth(DigitsValue(year), m) < day <= 31
    requires WalkFromHere(year, m, day + 1)
    ensures WalkFromHere(year, m, day)
  {
    CandidateBeyondMonth(year, m, day);
    SkipStep(year, Roman, m, day);
  }

  lemma CandidateBeyondMonth(year: string, m: int, day: int)
    requires IsYearText(year) && 1 <= m <= 12 && DaysInMonth(DigitsValue(year), m) < day <= 31
    ensures ParseDate(Candidate(year, m, day)).None?
  {
    CandidateParse(year, m, day);
  }

  lemma WalkKeep(year: string, m: int, day: int)
    requires IsYearText(year) && 1 <= m <= 12 && 1 <= day <= DaysInMonth(DigitsValue(year), m)
    requires WalkFromHere(year, m, day + 1)
    ensures WalkFromHere(year, m, day)
  {
    var d := Date(DigitsValue(year), m, day);
    KeepStep(year, m, day);
    WindowStep(d.year, d);
    WalkCons(d.year, DayNumber(d), Scan(year, Roman, m, day + 1), Scan(year, Roman, m, day));
  }

  /** What the Roman walk resuming at day number `n` of year `y` yields: a
      validation failure exactly when a date from `n` on lacks a season week,
      otherwise the keys of day numbers `n` up to the end of the year. */
  ghost predicate WalkFrom(y: int, n: int, r: Result<seq<DayKey>, CalendarError>) {
    && (r.Failure? <==> WindowFrom(y, n))
    && (r.Failure? ==> r.error == ValidationFailed)
    && (r.Success? ==>
          && |r.value| == DaysBeforeYear(y + 1) - n
          && (forall i :: 0 <= i < |r.value| ==> DayAt(r.value[i], n + i))
          && (forall k :: k in r.value ==> IsRomanKey(k)))
  }

  lemma ResumeAtMonthEnd(y: int, m: int)
    requires 1 <= m <= 12
    ensures ResumeAt(y, m, 32) == ResumeAt(y, m + 1, 1)
  {
    MonthStep(y, m);
    YearStep(y);
  }

  /** A candidate naming an existing day: the walk stops there with a
      validation failure when the day has no season week, and otherwise keeps
      the day's key in front of the rest. */
  lemma KeepStep(year: string, m: int, day: int)
    requires IsYearText(year) && 1 <= m <= 12 && 1 <= day <= 31 && day <= DaysInMonth(DigitsValue(year), m)
    ensures var d := Date(DigitsValue(year), m, day);
      var date := Candidate(year, m, day);
      && ParseDate(date) == Some(d)
      && ResumeAt(d.year, m, day) == DayNumber(d)
      && ResumeAt(d.year, m, day + 1) == DayNumber(d) + 1
      && (StartWindow(d) ==> Scan(year, Roman, m, day) == Failure(ValidationFailed))
      && (!StartWindow(d) ==>
            && GetRomanDay(date, Roman).Success?
            && DayAt(GetRomanDay(date, Roman).value, DayNumber(d))
            && IsRomanKey(GetRomanDay(date, Roman).value)
            && Scan(year, Roman, m, day) == Prepend([GetRomanDay(date, Roman).value], Scan(year, Roman, m, day + 1)))
  {
    var d := Date(DigitsValue(year), m, day);
    CandidateParse(year, m, day);
    assert ResumeAt(d.year, m, day) == DayNumber(d);
    VisitParsed(year, m, day, d);
  }

  lemma VisitParsed(year: string, m: int, day: int, d: Date)
    requires 1 <= m <= 12 && 1 <= day <= 31 && ParseDate(Candidate(year, m, day)) == Some(d)
    ensures var date := Candidate(year, m, day);
      && (StartWindow(d) ==> Scan(year, Roman, m, day) == Failure(ValidationFailed))
      && (!StartWindow(d) ==>
            && GetRomanDay(date, Roman).Success?
            && DayAt(GetRomanDay(date, Roman).value, DayNumber(d))
            && IsRomanKey(GetRomanDay(date, Roman).value)
            && Scan(year, Roman, m, day) == Prepend([GetRomanDay(date, Roman).value], Scan(year, Roman, m, day + 1)))
  {
    VisitStep(year, Roman, m, day);
    RomanDayFailsExactly(Candidate(year, m, day));
  }

  /** Putting the key of day `n` in front of the walk from day `n + 1`. */
  lemma WalkCons(y: int, n: int, rest: Result<seq<DayKey>, CalendarError>, r: Result<seq<DayKey>, CalendarError>)
    requires WalkFrom(y, n + 1, rest)
    requires WindowFrom(y, n) ==> r == Failure(ValidationFailed)
    requires !WindowFrom(y, n) ==> exists k :: DayAt(k, n) && IsRomanKey(k) && r == Prepend([k], rest)
    requires WindowFrom(y, n + 1) ==> WindowFrom(y, n)
    ensures WalkFrom(y, n, r)
  {
    if !WindowFrom(y, n) {
      var k :| DayAt(k, n) && IsRomanKey(k) && r == Prepend([k], rest);
      DaysCons(k, rest.value, n);
      KeysCons(k, rest.value);
    }
  }

  lemma DaysCons(k: DayKey, rest: seq<DayKey>, n: int)
    requires DayAt(k, n) && forall i :: 0 <= i < |rest| ==> DayAt(rest[i], n + 1 + i)
    ensures forall i :: 0 <= i < |[k] + rest| ==> DayAt(([k] + rest)[i], n + i)
  {
    forall i | 0 <= i < |[k] + rest|
      ensures DayAt(([k] + rest)[i], n + i)
    {
      if i > 0 {
        assert ([k] + rest)[i] == rest[i - 1];
      }
    }
  }

  lemma KeysCons(k: DayKey, rest: seq<DayKey>)
    requires IsRomanKey(k) && forall x :: x in rest ==> IsRomanKey(x)
    ensures forall x :: x in [k] + rest ==> IsRomanKey(x)
  {
  }

  lemma NoWindowAfterYear(y: int)
    ensures !WindowFrom(y, DaysBeforeYear(y + 1))
  {
    forall d | ValidDate(d) && d.year == y
      ensures DayNumber(d) < DaysBeforeYear(y + 1)
    {
      DayNumberInYear(d);
    }
  }

  /** June 1 lacks its season week when Pentecost is in June, December 1
      when Advent begins after it. */
  lemma UncleanWindow(y: int)
    requires y >= 0 && !CleanYear(y)
    ensures WindowFrom(y, DaysBeforeYear(y))
  {
    var d := if DayNumber(Pentecost(y)) >= On(y, 6, 1) then Date(y, 6, 1) else Date(y, 12, 1);
    assert StartWindow(d);
    assert DaysBeforeYear(y) <= DayNumber(d);
  }

  /** In a clean year every date has its season week. */
  lemma NoWindowInCleanYear(e: Date)
    requires ValidDate(e) && e.year >= 0 && CleanYear(e.year)
    ensures !StartWindow(e)
  {
    if e.month == 6 {
      assert DayNumber(e) >= On(e.year, 6, 1);
    } else if e.month == 12 {
      assert DayNumber(e) >= On(e.year, 12, 1);
    }
  }

  /** From a date's own day number, a date without season week is that date
      or a later one. */
  lemma WindowStep(y: int, d: Date)
    requires ValidDate(d) && d.year == y
    ensures WindowFrom(y, DayNumber(d)) <==> StartWindow(d) || WindowFrom(y, DayNumber(d) + 1)
  {
    if WindowFrom(y, DayNumber(d)) && !StartWindow(d) {
      var e :| ValidDate(e) && e.year == y && DayNumber(d) <= DayNumber(e) && StartWindow(e);
      DayNumberOrder(d, e);
    }
  }

  /** A successful walk starts with January 1 and ends with December 31. */
  lemma WalkSpansYear(y: int, r: Result<seq<DayKey>, CalendarError>)
    requires YearWalk(y, r) && r.Success?
    ensures |r.value| == YearLength(y) >= 365
    ensures r.value[0].date == FormatDate(Date(y, 1, 1))
    ensures r.value[|r.value| - 1].date == FormatDate(Date(y, 12, 31))
  {
    var ks := r.value;
    var n := |ks|;
    MonthStep(y, 12);
    assert DayAt(ks[0], DaysBeforeYear(y) + 0);
    assert DayAt(ks[n - 1], DaysBeforeYear(y) + (n - 1));
    DayNumberOrder(ParseDate(ks[0].date).value, Date(y, 1, 1));
    DayNumberOrder(ParseDate(ks[n - 1].date).value, Date(y, 12, 31));
    ParseThenFormat(ks[0].date);
    ParseThenFormat(ks[n - 1].date);
  }

  /** Some date of year `y` lacks a season week exactly when the year is not
      clean: June 1 does when Pentecost is in June, December 1 does when
      Advent begins after it, and no other date can. */
  lemma CleanYearExactly(y: int)
    requires y >= 0
    ensures WindowFrom(y, DaysBeforeYear(y)) <==> !CleanYear(y)
  {
    if !CleanYear(y) {
      UncleanWindow(y);
    }
    if CleanYear(y) && WindowFrom(y, DaysBeforeYear(y)) {
      var e :| ValidDate(e) && e.year == y && DaysBeforeYear(y) <= DayNumber(e) && StartWindow(e);
      NoWindowInCleanYear(e);
      assert false;
    }
  }

  // ---------------------------------------------------------------------------
  // Holidays

  /** The holiday names, in the order `Holidays` visits them. */
  const HolidayNames: seq<string> :=
    ["Ash Wednesday", "Holy Thursday", "Good Friday", "Easter Sunday", "Easter Monday", "Pentecost"]

  /** The holidays' dates: Easter minus 46, 3 and 2 days, Easter, and Easter
      plus 1 and 49 days. */
  function HolidayDates(year: int): (ds: seq<Date>)
    ensures |ds| == 6 && forall d :: d in ds ==> ValidDate(d)
  {
    var easter := EasterDate(year);
    [AshWednesday(year), HolyThursday(year), AddDays(easter, -2), easter, AddDays(easter, 1), Pentecost(year)]
  }

  /** The season and season week each holiday is given when it has one. */
  const HolidaySeasons: seq<Season> := [Lent, Triduum, Triduum, Easter, Easter, Easter]
  const HolidayWeeks: seq<int> := [1, 1, 1, 1, 1, 8]

  /** The outcome of `GetRomanDay` on holiday `i`'s formatted date. */
  function HolidayOutcome(year: int, tradition: string, i: int): Result<DayKey, CalendarError>
    requires 0 <= i < 6
  {
    GetRomanDay(FormatDate(HolidayDates(year)[i]), tradition)
  }

  /** The key `GetRomanDay` gives holiday `i` when it succeeds: the formatted
      date, the holiday's season and season week, and the date's weekday. */
  function HolidayKey(d: Date, i: int): DayKey
    requires ValidDate(d) && 0 <= i < 6
  {
    DayKey(FormatDate(d), Roman, HolidaySeasons[i], HolidayWeeks[i], WeekdayOfIndex(WeekdayIndex(d)))
  }

  /** A map holding exactly the six holidays, each with its key. */
  predicate HolidayMap(year: int, h: map<string, DayKey>) {
    && h.Keys == (set i | 0 <= i < 6 :: HolidayNames[i])
    && forall i :: 0 <= i < 6 ==> h[HolidayNames[i]] == HolidayKey(HolidayDates(year)[i], i)
  }

  /** `Holidays`: each holiday's date is formatted and passed to
      `GetRomanDay`, the first failure aborting. Another tradition fails at
      once; so does a year outside 0..9999, whose dates do not parse back;
      otherwise only Pentecost can fail, exactly when it falls in June. */
  method Holidays(year: int, tradition: string) returns (r: Result<map<string, DayKey>, CalendarError>)
    ensures tradition != Roman ==> r == Failure(UnsupportedCalendarTradition)
    ensures tradition == Roman && !(0 <= year <= 9999) ==> r == Failure(ParseDateFailed)
    ensures tradition == Roman && 0 <= year <= 9999 ==>
      && (r.Success? <==> Pentecost(year).month == 5)
      && (r.Failure? ==> r.error == ValidationFailed)
    ensures r.Success? ==> HolidayMap(year, r.value)
  {
    r := HolidayLoop(year, tradition);
    HolidayFacts(year, tradition);
    var w := HolidayScan(year, tradition, 0);
    if w.Success? {
      HolidayMapOf(year);
    }
  }

  /** The loop of `Holidays`, storing each key under its holiday's name. */
  method HolidayLoop(year: int, tradition: string) returns (r: Result<map<string, DayKey>, CalendarError>)
    ensures HolidayScan(year, tradition, 0).Failure? ==> r == Failure(HolidayScan(year, tradition, 0).error)
    ensures HolidayScan(year, tradition, 0).Success? ==> r == Success(KeyMap(HolidayScan(year, tradition, 0).value))
  {
    var holidays: map<string, DayKey> := map[];
    ghost var keys: seq<DayKey> := [];
    PrependNothing(HolidayScan(year, tradition, 0));
    var i := 0;
    while i < 6
      invariant 0 <= i <= 6 && |keys| == i
      invariant holidays == KeyMap(keys)
      invariant HolidayScan(year, tradition, 0) == Prepend(keys, HolidayScan(year, tradition, i))
    {
      var dayKey := GetRomanDay(FormatDate(HolidayDates(year)[i]), tradition);
      HolidayStep(year, tradition, i);
      if dayKey.Failure? {
        return Failure(dayKey.error);
      }
      PrependTwice(keys, dayKey.value, HolidayScan(year, tradition, i + 1));
      KeyMapStep(keys, dayKey.value);
      holidays := holidays[HolidayNames[i] := dayKey.value];
      keys := keys + [dayKey.value];
      i := i + 1;
    }
    assert keys + [] == keys;
    r := Success(holidays);
  }

  /** The keys of holidays `i` onwards, or the first failure among them. */
  function HolidayScan(year: int, tradition: string, i: int): (r: Result<seq<DayKey>, CalendarError>)
    requires 0 <= i <= 6
    ensures r.Success? ==> |r.value| == 6 - i
    decreases 6 - i
  {
    if i == 6 then Success([])
    else
      var o := HolidayOutcome(year, tradition, i);
      if o.Failure? then Failure(o.error) else Prepend([o.value], HolidayScan(year, tradition, i + 1))
  }

  lemma HolidayStep(year: int, tradition: string, i: int)
    requires 0 <= i < 6
    ensures var o := GetRomanDay(FormatDate(HolidayDates(year)[i]), tradition);
      HolidayScan(year, tradition, i) ==
        if o.Failure? then Failure(o.error) else Prepend([o.value], HolidayScan(year, tradition, i + 1))
  {
  }

  /** The map built from the first `|ks|` holidays' keys. */
  function KeyMap(ks: seq<DayKey>): map<string, DayKey>
    requires |ks| <= 6
  {
    if |ks| == 0 then map[] else KeyMap(ks[..|ks| - 1])[HolidayNames[|ks| - 1] := ks[|ks| - 1]]
  }

  lemma KeyMapStep(ks: seq<DayKey>, k: DayKey)
    requires |ks| < 6
    ensures KeyMap(ks + [k]) == KeyMap(ks)[HolidayNames[|ks|] := k]
  {
    assert (ks + [k])[..|ks|] == ks;
  }

  /** Each holiday's key is stored under its own name. */
  lemma {:induction false} KeyMapFacts(ks: seq<DayKey>)
    requires |ks| <= 6
    ensures KeyMap(ks).Keys == NamesBefore(|ks|)
    ensures forall j :: 0 <= j < |ks| ==> HolidayNames[j] in KeyMap(ks) && KeyMap(ks)[HolidayNames[j]] == ks[j]
  {
    if |ks| > 0 {
      var n := |ks| - 1;
      KeyMapFacts(ks[..n]);
      HolidayNamesStep(n);
      forall j | 0 <= j < |ks|
        ensures HolidayNames[j] in KeyMap(ks) && KeyMap(ks)[HolidayNames[j]] == ks[j]
      {
        if j < n {
          assert ks[..n][j] == ks[j];
        }
      }
    }
  }

  /** The names of the first `i` holidays. */
  function NamesBefore(i: int): set<string>
    requires 0 <= i <= 6
  {
    if i == 0 then {} else NamesBefore(i - 1) + {HolidayNames[i - 1]}
  }

  lemma {:induction false} NamesBeforeAre(i: int)
    requires 0 <= i <= 6
    ensures NamesBefore(i) == set j | 0 <= j < i :: HolidayNames[j]
  {
    if i > 0 {
      NamesBeforeAre(i - 1);
      var s := set j | 0 <= j < i :: HolidayNames[j];
      assert s == (set j | 0 <= j < i - 1 :: HolidayNames[j]) + {HolidayNames[i - 1]};
    }
  }

  lemma AllNames()
    ensures NamesBefore(6) == set j | 0 <= j < 6 :: HolidayNames[j]
  {
    NamesBeforeAre(6);
  }

  /** The names are distinct, so storing holiday `i` keeps the earlier ones. */
  lemma HolidayNamesStep(i: int)
    requires 0 <= i < 6
    ensures forall j :: 0 <= j < i ==> HolidayNames[j] != HolidayNames[i]
  {
    assert HolidayNames[0][0] == 'A' && HolidayNames[1][0] == 'H' && HolidayNames[2][0] == 'G';
    assert HolidayNames[3][7] == 'S' && HolidayNames[4][7] == 'M' && HolidayNames[5][0] == 'P';
    assert HolidayNames[3][0] == 'E' && HolidayNames[4][0] == 'E';
  }

  /** Which of the six `GetRomanDay` calls succeed and with what. */
  lemma HolidayOutcomeFacts(year: int, tradition: string, i: int)
    requires 0 <= i < 6
    ensures tradition != Roman ==> HolidayOutcome(year, tradition, i) == Failure(UnsupportedCalendarTradition)
    ensures tradition == Roman && !(0 <= year <= 9999) && i == 0 ==> HolidayOutcome(year, tradition, i) == Failure(ParseDateFailed)
    ensures tradition == Roman && 0 <= year <= 9999 ==>
      var o := HolidayOutcome(year, tradition, i);
      && (o.Success? <==> i < 5 || Pentecost(year).month == 5)
      && (o.Failure? ==> o.error == ValidationFailed)
      && (o.Success? ==> o.value == HolidayKey(HolidayDates(year)[i], i))
  {
    var ds := HolidayDates(year);
    if tradition == Roman && !(0 <= year <= 9999) && i == 0 {
      AshWednesdayOutOfRange(year);
      FormatOutOfRangeDoesNotParse(ds[0]);
    } else if tradition == Roman && 0 <= year <= 9999 {
      if i == 0 {
        AshWednesdayKey(year);
      } else if i == 1 {
        HolyThursdayKey(year);
      } else if i == 2 {
        GoodFridayKey(year);
      } else if i == 3 {
        EasterSundayKey(year);
      } else if i == 4 {
        EasterMondayKey(year);
      } else {
        PentecostKey(year);
      }
    }
  }

  /** What the walk over holidays `i` onwards yields in years 0..9999 of the
      Roman tradition: every key, or a validation failure from Pentecost. */
  ghost predicate HolidayWalk(year: int, i: int, r: Result<seq<DayKey>, CalendarError>)
    requires 0 <= i <= 6
  {
    && (r.Success? <==> i == 6 || Pentecost(year).month == 5)
    && (r.Failure? ==> r.error == ValidationFailed)
    && (r.Success? ==> r.value == HolidayKeys(HolidayDates(year), i))
  }

  /** The keys of holidays `i` onwards, given their dates `ds`. */
  function HolidayKeys(ds: seq<Date>, i: int): (ks: seq<DayKey>)
    requires |ds| == 6 && (forall d :: d in ds ==> ValidDate(d)) && 0 <= i <= 6
    ensures |ks| == 6 - i
    decreases 6 - i
  {
    if i == 6 then [] else [HolidayKey(ds[i], i)] + HolidayKeys(ds, i + 1)
  }

  lemma {:induction false} HolidayKeysAt(ds: seq<Date>, i: int, j: int)
    requires |ds| == 6 && (forall d :: d in ds ==> ValidDate(d)) && 0 <= i <= 6
    requires 0 <= j < 6 - i
    ensures HolidayKeys(ds, i)[j] == HolidayKey(ds[i + j], i + j)
    decreases j
  {
    if j > 0 {
      HolidayKeysAt(ds, i + 1, j - 1);
    }
  }

  /** The map of the six holidays' keys is the expected holiday map. */
  lemma HolidayMapOf(year: int)
    ensures HolidayMap(year, KeyMap(HolidayKeys(HolidayDates(year), 0)))
  {
    KeyMapFacts(HolidayKeys(HolidayDates(year), 0));
    AllNames();
    KeysMapOf(HolidayDates(year));
  }

  lemma KeysMapOf(ds: seq<Date>)
    requires |ds| == 6 && (forall d :: d in ds ==> ValidDate(d))
    ensures var h := KeyMap(HolidayKeys(ds, 0));
      forall j :: 0 <= j < 6 ==> HolidayNames[j] in h && h[HolidayNames[j]] == HolidayKey(ds[j], j)
  {
    KeyMapFacts(HolidayKeys(ds, 0));
    AllHolidayKeys(ds);
  }

  lemma AllHolidayKeys(ds: seq<Date>)
    requires |ds| == 6 && (forall d :: d in ds ==> ValidDate(d))
    ensures forall j :: 0 <= j < 6 ==> HolidayKeys(ds, 0)[j] == HolidayKey(ds[j], j)
  {
    forall j | 0 <= j < 6
      ensures HolidayKeys(ds, 0)[j] == HolidayKey(ds[j], j)
    {
      HolidayKeysAt(ds, 0, j);
    }
  }

  lemma {:induction false} HolidayWalkFrom(year: int, i: int)
    requires 0 <= year <= 9999 && 0 <= i <= 6
    ensures HolidayWalk(year, i, HolidayScan(year, Roman, i))
    decreases 6 - i
  {
    if i < 6 {
      HolidayWalkFrom(year, i + 1);
      HolidayOutcomeFacts(year, Roman, i);
    }
  }

  /** What the six calls to `GetRomanDay` add up to. */
  lemma HolidayFacts(year: int, tradition: string)
    ensures tradition != Roman ==> HolidayScan(year, tradition, 0) == Failure(UnsupportedCalendarTradition)
    ensures tradition == Roman && !(0 <= year <= 9999) ==> HolidayScan(year, tradition, 0) == Failure(ParseDateFailed)
    ensures tradition == Roman && 0 <= year <= 9999 ==> HolidayWalk(year, 0, HolidayScan(year, tradition, 0))
  {
    HolidayOutcomeFacts(year, tradition, 0);
    if tradition == Roman && 0 <= year <= 9999 {
      HolidayWalkFrom(year, 0);
    }
  }

  /** Outside years 0..9999 Ash Wednesday is outside them too, so its text
      does not parse. */
  lemma AshWednesdayOutOfRange(year: int)
    requires !(0 <= year <= 9999)
    ensures AshWednesday(year).year < 0 || AshWednesday(year).year > 9999
  {
    var a := AshWednesday(year);
    if year > 9999 {
      AshWednesdayMonth(year);
    } else {
      DayNumberInYear(a);
      if a.year >= 0 {
        DaysBeforeYearMonotone(year + 1, 0);
        DaysBeforeYearMonotone(0, a.year);
      }
    }
  }

  /** A date in season `s`, `w` weeks in, gets that season and week. */
  lemma DayKeyOfDate(d: Date, s: Season, w: int)
    requires ValidDate(d) && 0 <= d.year <= 9999 && RomanSeason(d) == s && w >= 1
    requires var days := DayNumber(d) - DayNumber(SeasonStart(d, s));
      7 * (w - 1) <= days < 7 * w
    ensures GetRomanDay(FormatDate(d), Roman) == Success(DayKey(FormatDate(d), Roman, s, w, WeekdayOfIndex(WeekdayIndex(d))))
  {
    FormatThenParse(d);
    KeyOfParsed(FormatDate(d), d, s, w);
  }

  lemma KeyOfParsed(date: string, p: Date, s: Season, w: int)
    requires ParseDate(date) == Some(p) && RomanSeason(p) == s && w >= 1
    requires var days := DayNumber(p) - DayNumber(SeasonStart(p, s));
      7 * (w - 1) <= days < 7 * w
    ensures GetRomanDay(date, Roman) == Success(DayKey(date, Roman, s, w, WeekdayOfIndex(WeekdayIndex(p))))
  {
    var r := GetRomanDay(date, Roman);
    assert r.Success?;
    WeekBlockUnique(DayNumber(p) - DayNumber(SeasonStart(p, s)), w, r.value.seasonWeek);
  }

  lemma AshWednesdayFacts(y: int)
    requires 0 <= y <= 9999
    ensures var d := AshWednesday(y);
      && 0 <= d.year <= 9999 && RomanSeason(d) == Lent
      && DayNumber(SeasonStart(d, Lent)) == DayNumber(d)
  {
    AshWednesdayMonth(y);
    AshWednesdayIsLent(y);
  }

  lemma AshWednesdayKey(y: int)
    requires 0 <= y <= 9999
    ensures GetRomanDay(FormatDate(AshWednesday(y)), Roman) == Success(DayKey(FormatDate(AshWednesday(y)), Roman, Lent, 1, WeekdayOfIndex(WeekdayIndex(AshWednesday(y)))))
  {
    AshWednesdayFacts(y);
    DayKeyOfDate(AshWednesday(y), Lent, 1);
  }

  lemma HolyThursdayFacts(y: int)
    requires 0 <= y <= 9999
    ensures var h := HolyThursday(y); var g := AddDays(EasterDate(y), -2);
      && 0 <= h.year <= 9999 && RomanSeason(h) == Triduum
      && DayNumber(SeasonStart(h, Triduum)) == DayNumber(h)
      && 0 <= g.year <= 9999 && RomanSeason(g) == Triduum
      && DayNumber(SeasonStart(g, Triduum)) == DayNumber(g) - 1
  {
    FeastBounds(y);
    MonthOfDayNumberEither(HolyThursday(y), y, 3, 4);
    MonthOfDayNumberEither(AddDays(EasterDate(y), -2), y, 3, 4);
    HolyThursdayIsTriduum(y);
  }

  lemma HolyThursdayKey(y: int)
    requires 0 <= y <= 9999
    ensures GetRomanDay(FormatDate(HolyThursday(y)), Roman) == Success(DayKey(FormatDate(HolyThursday(y)), Roman, Triduum, 1, WeekdayOfIndex(WeekdayIndex(HolyThursday(y)))))
  {
    HolyThursdayFacts(y);
    DayKeyOfDate(HolyThursday(y), Triduum, 1);
  }

  lemma GoodFridayKey(y: int)
    requires 0 <= y <= 9999
    ensures GetRomanDay(FormatDate(AddDays(EasterDate(y), -2)), Roman) == Success(DayKey(FormatDate(AddDays(EasterDate(y), -2)), Roman, Triduum, 1, WeekdayOfIndex(WeekdayIndex(AddDays(EasterDate(y), -2)))))
  {
    HolyThursdayFacts(y);
    DayKeyOfDate(AddDays(EasterDate(y), -2), Triduum, 1);
  }

  lemma EasterFacts(y: int)
    requires 0 <= y <= 9999
    ensures var e := EasterDate(y); var m := AddDays(e, 1);
      && 0 <= e.year <= 9999 && RomanSeason(e) == Easter
      && DayNumber(SeasonStart(e, Easter)) == DayNumber(e)
      && 0 <= m.year <= 9999 && RomanSeason(m) == Easter
      && DayNumber(SeasonStart(m, Easter)) == DayNumber(m) - 1
  {
    FeastBounds(y);
    MonthOfDayNumberEither(EasterDate(y), y, 3, 4);
    MonthOfDayNumberEither(AddDays(EasterDate(y), 1), y, 3, 4);
    EasterSundayIsEaster(y);
  }

  lemma EasterSundayKey(y: int)
    requires 0 <= y <= 9999
    ensures GetRomanDay(FormatDate(EasterDate(y)), Roman) == Success(DayKey(FormatDate(EasterDate(y)), Roman, Easter, 1, WeekdayOfIndex(WeekdayIndex(EasterDate(y)))))
  {
    EasterFacts(y);
    DayKeyOfDate(EasterDate(y), Easter, 1);
  }

  lemma EasterMondayKey(y: int)
    requires 0 <= y <= 9999
    ensures GetRomanDay(FormatDate(AddDays(EasterDate(y), 1)), Roman) == Success(DayKey(FormatDate(AddDays(EasterDate(y), 1)), Roman, Easter, 1, WeekdayOfIndex(WeekdayIndex(AddDays(EasterDate(y), 1)))))
  {
    EasterFacts(y);
    DayKeyOfDate(AddDays(EasterDate(y), 1), Easter, 1);
  }

  lemma PentecostFacts(y: int)
    requires 0 <= y <= 9999
    ensures var p := Pentecost(y);
      && p.year == y && (p.month == 5 || p.month == 6)
      && (p.month == 5 ==> RomanSeason(p) == Easter && DayNumber(SeasonStart(p, Easter)) == DayNumber(p) - 49)
  {
    FeastBounds(y);
    MonthOfDayNumberEither(Pentecost(y), y, 5, 6);
    PentecostSeason(y);
  }

  lemma PentecostKey(y: int)
    requires 0 <= y <= 9999
    ensures var r := GetRomanDay(FormatDate(Pentecost(y)), Roman);
      && (Pentecost(y).month == 5 ==> r == Success(DayKey(FormatDate(Pentecost(y)), Roman, Easter, 8, WeekdayOfIndex(WeekdayIndex(Pentecost(y))))))
      && (Pentecost(y).month != 5 ==> r == Failure(ValidationFailed))
  {
    var p := Pentecost(y);
    PentecostFacts(y);
    if p.month == 5 {
      DayKeyOfDate(p, Easter, 8);
    } else {
      PentecostInJuneFails(p);
    }
  }

  /** A June date up to its year's Pentecost precedes the Ordinary Time it is
      classified in. */
  lemma PentecostInJuneFails(p: Date)
    requires ValidDate(p) && 0 <= p.year <= 9999 && p.month == 6
    requires DayNumber(p) <= DayNumber(Pentecost(p.year))
    ensures GetRomanDay(FormatDate(p), Roman) == Failure(ValidationFailed)
  {
    FormatThenParse(p);
    RomanDayFailsExactly(FormatDate(p));
  }
}
