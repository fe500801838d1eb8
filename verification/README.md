# Liturgical time index: calendar, RB references, plans and compilation

This project models the core of a small Go tool that assigns a reading from
the Rule of Saint Benedict (RB) to each day of the Roman liturgical year, and
proves properties of that model in Dafny. The model covers:

- **The Roman calendar engine** (`internal/calendar`):
  - Easter by the anonymous Gregorian algorithm, with the Julian formula before 1583;
  - the month-by-month season decision and the start rule of each season;
  - the season week and the weekday;
  - `GetRomanDay`, which composes them into a `DayKey`;
  - the `Holidays` table and the year walk of `GenerateRomanCalendar`.
- **The RB reference grammar** (`internal/plan/rbref.go`): `parseRbRef`,
  `parseVerseRange`, `parsePositiveInt`, `validate` and `String`.
- **Entry expansion** (`PlanEntry.Validate`, `internal/plan/entry.go`): every
  reference string of an entry is parsed, in order.
- **Plan validation** (`Plan.Validate` and `validateWeekdays`, `internal/plan/plan.go`).
- **`Compile`** (`internal/compile/compiler.go`): chooses the weekday entry,
  the season's fallback or the plan's defaults for one day.

## Representation

- **Dates.** A date is `Date(year, month, day)` with a proleptic Gregorian
  validity predicate, including the leap-year rule. It maps to an integer
  `DayNumber` (days from civil). Go's `time.Date`/`AddDate` normalisation is
  `Normalize`/`AddDays`. Go's `time.Parse` with the layout `2006-01-02` is
  `ParseDate`, and `Format` is `FormatDate`.
- **Go arithmetic.** Go's truncating `/` and `%` are `GoQuo` and `GoRem`, so
  Easter is defined for every integer year.
- **Strings and errors.** Strings are `seq<char>`; the en-dash, em-dash and
  hyphen are single characters. Errors are kinds only: `CalendarError`,
  `RbRefError`, and `PlanFault` with its `PlanErrorKind`.
- **Parsers and loops.** Every parser returns a `Result`. The loops of
  `GenerateRomanCalendar` and `Holidays` are methods whose loop invariants tie
  them to recursive reference functions (`Scan`, `HolidayScan`).
- **Map iteration order.** Go's iteration order over the plan's maps is
  unspecified. It is an explicit parameter: `order` lists the season names and
  `dayOrders` lists each season's weekday keys, both as permutations.
  Validation is proved to pass or fail independently of that order. Only
  which fault is reported depends on it.

Where the source's tests and declarations disagree with its code, the model
follows the code:

- **Season week is not total.** The `DayKey` tag `validate:"required,gte=1"`
  (`internal/calendar/calendar.go:47`) and the tests
  (`internal/calendar/roman_test.go:128`, `185`, `241-243`, `398-400`) expect a
  season week of at least 1 for every valid date. The code classifies by month
  but starts seasons by feast, so `GetRomanDay` fails in two windows:
  - June days up to a June Pentecost (Ordinary Time starts the day after Pentecost);
  - December days before a December Advent Sunday.

  `SeasonFacts.SeasonStartReached` and `SeasonFacts.RomanDayFailsExactly` state
  exactly when this happens. `Generation.CleanYearExactly` gives the years in
  which `GenerateRomanCalendar` fails. For example, 2025 fails because
  Pentecost is June 8; 2024 succeeds.
- **Season name.** The compiler tests name the Easter season
  `calendar.Eastertide` (`internal/compile/compiler_test.go:138`, `526`). The
  calendar package declares it as `Easter`, with the value `Easter`
  (`internal/calendar/calendar.go:27`), and the model uses that.
- **Weekday keys.** `Compile` looks weekdays up by the full weekday name
  (`Monday`). `validateWeekdays` demands the short keys `mon`…`sun`. The
  compiler tests key their fixtures by the short names and expect those
  entries to be chosen (`internal/compile/compiler_test.go:381-392`,
  `781-783`). The model keeps both lookups literal
  (`Compiler.ShortWeekdayKeysNeverMatch`), and
  `PlanExamples.WeekdayOverrideAdventDays` and
  `PlanExamples.DefaultFallbackDays` state what `Compile` returns on those
  fixtures: the fallback, and the defaults.

The days from Epiphany up to Ash Wednesday are Epiphanytide
(`internal/calendar/roman.go:124-137`), so Ordinary Time has one start, the
day after Pentecost.

## Model

| member | source | states |
|---|---|---|
| Calendar.GoRem | internal/calendar/calendar.go:62-82 | Go's truncating remainder: its magnitude is below the divisor, and it agrees with Dafny's `%` on non-negative operands |
| CalendarFacts.GoDivisionAgrees | internal/calendar/calendar.go:62-82 | for non-negative operands Go's `/` and `%` agree with Euclidean division, so Easter's terms need no sign cases from year 0 on |
| Calendar.Gregorian | internal/calendar/calendar.go:62-76 | the Gregorian terms for years from 0 on: a in [0,18], h in [0,29], l in [0,6], m in {0,1}, with m the quotient of a+11h+22l by 451 |
| Calendar.Julian | internal/calendar/calendar.go:77-83 | the Julian terms d and e lie strictly within ±30 and ±7 for every year, and in [0,29] and [0,6] from year 0 on |
| Calendar.EasterOffset | internal/calendar/calendar.go:59-83 | the day-of-March offset r: in [22,56] from 1583 on, in [22,57] for years 0..1582, and never below -13 |
| CalendarFacts.GregorianEasterRange | internal/calendar/calendar.go:63-76 | from 1583 on, r = 22+h+l−7m with h, l, m in range, so Easter lies from March 22 to April 25 |
| CalendarFacts.JulianEasterRange | internal/calendar/calendar.go:77-83 | before 1583, r = 22+d+e with d in [0,29] and e in [0,6], so r lies in [22,57] |
| Calendar.EasterDate | internal/calendar/calendar.go:85 | `time.Date(year, March, r)` normalised: a valid date whose day number is March 1 plus r−1 |
| CalendarFacts.EasterInMarchOrApril | internal/calendar/calendar.go:85 | Easter is in the input year, in March (day r) when r ≤ 31 and in April (day r−31) otherwise |
| CalendarFacts.Easter2025 | internal/calendar/calendar.go:59-86 | Easter 2025 is April 20 |
| CalendarFacts.FeastBounds | internal/calendar/roman.go:98-111 | Ash Wednesday, Holy Thursday and Pentecost sit at −46, −3 and +49 days from Easter; Easter lies in [Mar 22, Apr 26], Ash Wednesday in [Feb 4, Mar 12], Pentecost in [May 10, Jun 14], the Advent Sunday in [Nov 27, Dec 3] |
| CalendarFacts.AshWednesdayMonth | internal/calendar/roman.go:129-133 | Ash Wednesday is in February or March of the same year, and in February exactly when it precedes March 1 |
| Calendar.SundayOnOrAfterNov27 | internal/calendar/roman.go:106-111 | Nov 27 plus (0 − weekday + 7) % 7 days is a Sunday between Nov 27 and Dec 3 |
| Calendar.AdventSundayIsFirst | internal/calendar/roman.go:106-111 | that Sunday is the first Sunday on or after Nov 27: no day between Nov 27 and it is a Sunday |
| SeasonFacts.ChristmastideDays | internal/calendar/roman.go:119-128 | Christmastide is exactly Dec 25–31 and Jan 1–5 |
| SeasonFacts.AdventDays | internal/calendar/roman.go:114-123 | Advent is exactly the November days from the Advent Sunday on, and Dec 1–24 |
| SeasonFacts.EpiphanytideInterval | internal/calendar/roman.go:124-136 | Epiphanytide is exactly Jan 6 up to, not including, Ash Wednesday |
| SeasonFacts.LentInterval | internal/calendar/roman.go:129-140 | Lent is exactly Ash Wednesday up to, not including, Holy Thursday; the February month check never changes the outcome |
| SeasonFacts.TriduumInterval | internal/calendar/roman.go:141-143 | the Triduum is exactly Holy Thursday up to, not including, Easter Sunday |
| SeasonFacts.EasterInterval | internal/calendar/roman.go:144-147 | the Easter season is exactly Easter Sunday to Pentecost inclusive, restricted to dates up to May |
| SeasonFacts.OrdinaryDays | internal/calendar/roman.go:113-150 | Ordinary Time is exactly the non-December days strictly between Pentecost and the Advent Sunday, plus June days up to a June Pentecost |
| SeasonFacts.AdventSundayIsAdvent | internal/calendar/roman.go:106-118 | the Advent Sunday is classified Advent |
| SeasonFacts.AshWednesdayIsLent | internal/calendar/roman.go:129-140 | Ash Wednesday is classified Lent |
| SeasonFacts.HolyThursdayIsTriduum | internal/calendar/roman.go:141-143 | Holy Thursday and Good Friday are classified Triduum |
| SeasonFacts.EasterSundayIsEaster | internal/calendar/roman.go:144-147 | Easter Sunday and Easter Monday are classified Easter |
| SeasonFacts.PentecostSeason | internal/calendar/roman.go:144-150 | Pentecost is in the Easter season exactly when it falls in May; a June Pentecost is Ordinary |
| SeasonFacts.DayAfterPentecostIsOrdinary | internal/calendar/roman.go:148-150 | the day after Pentecost is Ordinary Time |
| SeasonFacts.SeasonMonths | internal/calendar/roman.go:113-151 | the month rule: Advent lies in November or December, Christmastide in December or January, Lent, Triduum and Easter in February to May, Epiphanytide (from year 0 on) in January to March, and every June to October day is Ordinary Time |
| SeasonFacts.EpiphanytideEndsInMarch | internal/calendar/roman.go:124-136 | an Epiphanytide date of a year from 0 on lies before March 12, the latest Ash Wednesday |
| SeasonFacts.StartLiesInSeason | internal/calendar/roman.go:244-270 | the start computed for a date's own season is classified as that same season |
| SeasonFacts.SeasonStartReached | internal/calendar/roman.go:244-270 | a date precedes its own season's start exactly in the two windows: June days up to a June Pentecost, December days before a December Advent Sunday |
| SeasonFacts.AdventStartReached | internal/calendar/roman.go:245-251 | an Advent date precedes Advent Sunday exactly in the December window |
| SeasonFacts.ChristmastideStartReached | internal/calendar/roman.go:252-256 | a Christmastide date is on or after its Dec 25 and never in a window |
| SeasonFacts.LentStartReached | internal/calendar/roman.go:259-261 | a Lent date is on or after Ash Wednesday and never in a window |
| SeasonFacts.TriduumStartReached | internal/calendar/roman.go:262-264 | a Triduum date is on or after Holy Thursday and never in a window |
| SeasonFacts.EasterStartReached | internal/calendar/roman.go:265-266 | an Easter-season date is on or after Easter Sunday and never in a window |
| SeasonFacts.OrdinaryStartReached | internal/calendar/roman.go:267-270 | an Ordinary date precedes the day after Pentecost exactly in the June window |
| SeasonFacts.SeasonStartDates | internal/calendar/roman.go:244-273 | the start rule of each season: Advent on the Sunday among Nov 27–Dec 3, Christmastide on Dec 25 of the year (of the previous year for a January date), Epiphanytide on Jan 6, Lent 46 days and the Triduum 3 days before Easter, the Easter season on Easter Sunday, Ordinary Time 50 days after Easter |
| Calendar.GetRomanSeason | internal/calendar/roman.go:74-93 | another tradition fails as unsupported, an unparsable date fails as a parse error, and success gives the month-rule season of the parsed date |
| Calendar.GetRomanSeasonStartDate | internal/calendar/roman.go:225-274 | the tradition is checked before the date; success gives the season's start rule applied to the parsed date |
| Calendar.ValidDayKeyFacts | internal/calendar/calendar.go:43-49 | a day key passes its `validate` tags exactly when its date parses, its tradition is non-empty and its season week is at least 1; the date text of a valid key is the canonical rendering of its date |
| Calendar.GetRomanSeasonWeek | internal/calendar/roman.go:187-221 | fails with a validation error exactly when the date precedes the start; otherwise the week w is at least 1 and the day offset lies in [7(w−1), 7w) |
| SeasonFacts.WeekBlockUnique | internal/calendar/roman.go:215-220 | a day offset lies in exactly one 7-day block, so the week is determined by the offset |
| Calendar.GetRomanWeekday | internal/calendar/roman.go:155-183 | an unparsable date fails as a parse error; otherwise the weekday is the true Gregorian weekday of the date |
| SeasonFacts.WeekdayIndexOfInjective | internal/calendar/roman.go:164-179 | the seven weekday constants correspond one-to-one to weekday indices |
| Civil.WeekdayAdvances | internal/calendar/roman.go:164 | moving n days moves the weekday index by n modulo 7 |
| Calendar.GetRomanDay | internal/calendar/roman.go:42-71 | tradition, then parse, then season week can fail, in that order; success carries the input date, the Roman tradition, the date's season, its weekday and a week whose block contains the day offset, and satisfies the `DayKey` validation tags |
| SeasonFacts.RomanDayFailsExactly | internal/calendar/roman.go:192-213 | for a parsable date `GetRomanDay` fails exactly in the two windows, always with a validation error |
| SeasonFacts.RomanDayExactly | internal/calendar/roman.go:42-71 | `GetRomanDay` returns a given key exactly when the date parses to a date of that season, week block and weekday |
| Civil.Normalize | internal/calendar/calendar.go:85 | `time.Date` overflow normalisation: a valid date whose day number is the first of the month plus d−1 |
| Civil.AddDays | internal/calendar/roman.go:100-104 | `AddDate(0, 0, n)`: a valid date exactly n days later |
| Civil.NormalizeInRange | internal/calendar/calendar.go:85 | normalising a date already in range changes nothing |
| Civil.DayNumberOrder | internal/calendar/roman.go:130-145 | day-number order coincides with the calendar order used by `Before`/`After`/`Equal`, and equal day numbers mean equal dates |
| Civil.ParseDate | internal/calendar/roman.go:87-93 | a parsed date is valid and its year lies in 0..9999 |
| Civil.FormatThenParse | internal/calendar/roman.go:297-298 | formatting a valid date of year 0..9999 and parsing it back gives the same date |
| Civil.FormatOutOfRangeDoesNotParse | internal/calendar/roman.go:297-298 | the formatted text of a date outside years 0..9999 does not parse |
| Civil.ParseThenFormat | internal/calendar/roman.go:18-19 | formatting a parsed date gives back the exact text that was parsed |
| Civil.ParseDateInjective | internal/calendar/roman.go:18-19 | two texts that parse to the same date are the same text |
| Decimal.PadZeroTwoDigits | internal/calendar/roman.go:308-313 | `padZero` of a number below 100 is two digits with that value |
| Decimal.PadZero | internal/calendar/roman.go:308-313 | `padZero` gives at least two digits, and starts with `0` exactly when the number is below 10 |
| Decimal.ParseInt64 | internal/plan/rbref.go:300-301 | `strconv.ParseInt(s, 10, 64)`: an accepted value lies in the `int64` range |
| Civil.FormatDate | internal/calendar/roman.go:297 | the `2006-01-02` layout: a date of year 0..9999 gives ten characters with dashes at positions 4 and 7; a negative year gives text starting with `-` |
| Generation.CandidateParse | internal/calendar/roman.go:16-19 | the candidate text for month m and day d parses exactly when the year text is four digits and d fits the month, and then gives that date |
| Generation.GenerateRomanCalendar | internal/calendar/roman.go:13-39 | a year text that is not four digits gives an empty list; another tradition fails as unsupported; otherwise the result is the year walk |
| Generation.GenerateLoop | internal/calendar/roman.go:16-37 | the nested month/day loop computes the reference scan `Scan`, aborting at the first failure |
| Generation.VisitStep | internal/calendar/roman.go:18-34 | one loop step: skip an unparsable candidate, abort with `GetRomanDay`'s error or a validation error, or prepend the key |
| Generation.GenerateFacts | internal/calendar/roman.go:13-39 | the scan is empty for a bad year text, unsupported for another tradition, and a year walk otherwise |
| Generation.CleanYearExactly | internal/calendar/roman.go:13-39 | a year has a date without a season week exactly when it is not clean: Pentecost in June or Advent Sunday after Dec 1 |
| Generation.WalkSpansYear | internal/calendar/roman.go:13-39 | a successful year walk has one key per day of the year, at least 365, first Jan 1 and last Dec 31 |
| Generation.Holidays | internal/calendar/roman.go:277-306 | another tradition fails as unsupported; a year outside 0..9999 fails as a parse error; otherwise the table succeeds exactly when Pentecost is in May, and then holds exactly the six holidays, each with its key |
| Generation.HolidayLoop | internal/calendar/roman.go:295-305 | the loop over the six names computes `HolidayScan`, aborting at the first failure, and builds the name-to-key map |
| Generation.HolidayOutcomeFacts | internal/calendar/roman.go:278-303 | each holiday's outcome: the first five always succeed with their key; Pentecost succeeds exactly in a May Pentecost year |
| Generation.HolidayFacts | internal/calendar/roman.go:277-306 | the holiday scan fails as unsupported, fails as a parse error, or follows the holiday walk |
| Generation.KeyMapFacts | internal/calendar/roman.go:295-303 | the map built from k keys has exactly the first k holiday names, each mapped to its key |
| Generation.AshWednesdayKey | internal/calendar/roman.go:278-302 | Ash Wednesday is Lent, week 1 |
| Generation.HolyThursdayKey | internal/calendar/roman.go:278-302 | Holy Thursday is Triduum, week 1 |
| Generation.GoodFridayKey | internal/calendar/roman.go:278-302 | Good Friday is Triduum, week 1 |
| Generation.EasterSundayKey | internal/calendar/roman.go:278-302 | Easter Sunday is Easter, week 1 |
| Generation.EasterMondayKey | internal/calendar/roman.go:278-302 | Easter Monday is Easter, week 1 |
| Generation.PentecostKey | internal/calendar/roman.go:278-302 | a May Pentecost is Easter, week 8; a June Pentecost fails validation |
| Generation.PentecostInJuneFails | internal/calendar/roman.go:267-270 | every June date up to a June Pentecost fails `GetRomanDay` with a validation error |
| CalendarExamples.AdventSunday2025 | internal/calendar/roman_test.go:403-418 | 2025-11-30, the Sunday after Thursday Nov 27, is Advent |
| CalendarExamples.DayBeforeAdvent2025 | internal/calendar/roman_test.go:403-418 | 2025-11-29 is Ordinary Time |
| CalendarExamples.ChristmasEve2025 | internal/calendar/roman_test.go:420-439 | 2025-12-24 is Advent |
| CalendarExamples.ChristmasDay2025 | internal/calendar/roman_test.go:420-439 | 2025-12-25 is Christmastide |
| CalendarExamples.TwelfthDay2025 | internal/calendar/roman_test.go:441-455 | 2025-01-05 is Christmastide |
| CalendarExamples.Epiphany2025 | internal/calendar/roman_test.go:441-455 | 2025-01-06 is Epiphanytide |
| CalendarExamples.AshWednesday2025 | internal/calendar/roman_test.go:107-118 | 2025-03-05 is Lent |
| CalendarExamples.FirstSundayOfLent2025 | internal/calendar/roman_test.go:149-159 | 2025-03-09 is Lent |
| CalendarExamples.HolyThursday2025 | internal/compile/compiler_test.go:56-63 | 2025-04-17 is the Triduum |
| CalendarExamples.EasterSunday2025 | internal/calendar/roman_test.go:457-479 | 2025-04-20 is Easter |
| CalendarExamples.DayAfterPentecost2025 | internal/calendar/roman_test.go:457-479 | 2025-06-09 is Ordinary Time |
| CalendarExamples.JuneBeforePentecost2025 | internal/calendar/roman.go:267-270 | 2025-06-01 is classified Ordinary, yet `GetRomanDay` fails with a validation error because Ordinary Time starts 2025-06-09 |
| CalendarExamples.DecemberBeforeAdvent2023 | internal/calendar/roman.go:245-251 | 2023-12-01 is classified Advent, yet `GetRomanDay` fails with a validation error because Advent starts 2023-12-03 |
| CalendarExamples.SundayMarch9_2025 | internal/calendar/roman_test.go:9-37 | 2025-03-09 is a Sunday |
| CalendarExamples.WednesdayMarch12_2025 | internal/calendar/roman_test.go:9-37 | 2025-03-12 is a Wednesday |
| CalendarExamples.SaturdayMarch15_2025 | internal/calendar/roman_test.go:9-37 | 2025-03-15 is a Saturday |
| CalendarExamples.InvalidDateText | internal/calendar/roman_test.go:39-50 | `invalid-date` fails as a parse error |
| CalendarExamples.NoLeapDay2025 | internal/calendar/roman.go:87-93 | 2025-02-29 does not parse |
| CalendarExamples.UnknownTradition | internal/calendar/roman_test.go:192-203 | an unknown tradition fails as unsupported in `GetRomanDay`, `GetRomanSeason` and the start-date rule |
| CalendarExamples.NewYearBeforeLent2025 | internal/calendar/roman_test.go:135-147 | the season week of 2025-01-01 against Lent fails with a validation error |
| CalendarExamples.Feasts2025 | internal/calendar/roman.go:98-105 | in 2025 Easter is April 20, Ash Wednesday March 5, Holy Thursday April 17, Pentecost June 8 |
| CalendarExamples.Advent2025 | internal/calendar/roman.go:106-111 | the Advent Sunday of 2025 is November 30 |
| CalendarExamples.Advent2023 | internal/calendar/roman.go:106-111 | the Advent Sunday of 2023 is December 3 |
| GenerationExamples.Generate2024 | internal/calendar/roman_test.go:214-259 | the 2024 calendar has 366 keys, first 2024-01-01, last 2024-12-31, all Roman with week at least 1 |
| GenerationExamples.Generate2025 | internal/calendar/roman.go:13-39 | the 2025 calendar fails with a validation error, its June Pentecost leaving June 1–8 without a season week |
| GenerationExamples.GenerateInvalidTradition | internal/calendar/roman_test.go:275-282 | generating 2025 for an unknown tradition fails as unsupported |
| GenerationExamples.GenerateShortYear | internal/calendar/roman.go:16-20 | a year text that is not four digits yields an empty calendar |
| GenerationExamples.Holidays2024 | internal/calendar/roman_test.go:284-326 | the 2024 holidays succeed with all six names; Easter Sunday is 2024-03-31, Easter, week 1, Sunday |
| GenerationExamples.Holidays2025 | internal/calendar/roman.go:277-306 | the 2025 holidays fail with a validation error at Pentecost |
| GenerationExamples.HolidaysInvalidTradition | internal/calendar/roman.go:298-301 | holidays for an unknown tradition fail as unsupported |
| Decimal.ParseInt64PlusSign | internal/plan/rbref.go:300-301 | `strconv.ParseInt` accepts a leading `+` |
| Decimal.IntToStringRoundTrip | internal/plan/rbref.go:300-301 | an int64 rendered with `%d` parses back to itself |
| Decimal.ParsedPositiveShape | internal/plan/rbref.go:300-321 | a text that parses to a positive number is its decimal digits, optionally after a `+` |
| RbRefs.ParsePositiveInt | internal/plan/rbref.go:300-322 | succeeds exactly when `ParseInt` succeeds with a positive value, which it returns; every failure is a parse error |
| RbRefs.NormalizeDashes | internal/plan/rbref.go:250-251 | hyphens and em-dashes are replaced, leaving the length unchanged and neither character behind |
| RbRefs.ParseVerseRange | internal/plan/rbref.go:245-298 | the empty text gives no range; any other successful parse gives a range with start ≥ 1 and a present end strictly greater than the start |
| RbRefs.VerseDashes | internal/plan/rbref.go:252-262 | more than one dash after normalisation is a parse error |
| RbRefs.DashesInterchangeable | internal/plan/rbref.go:250-252 | a hyphen, an em-dash or an en-dash between the verses gives the same result |
| RbRefs.SingleVerse | internal/plan/rbref.go:264-297 | a dash-free verse text gives a single-verse range or the integer parser's error |
| RbRefs.TwoVerses | internal/plan/rbref.go:264-297 | two verses: an end below the start is a validation error, an equal end is dropped, a greater end is kept |
| RbRefs.ValidateVerse | internal/plan/rbref.go:50-66 | a verse range passes exactly when its start is at least 1 and a present end is not below the start |
| RbRefs.Validate | internal/plan/rbref.go:49-110 | passes exactly when a prologue has no chapter and a valid range, and a chapter is present, in [1,73], with a valid range if any |
| RbRefs.ParseShape | internal/plan/rbref.go:137-236 | fewer than 2 or more than 3 space tokens, or a first token other than `RB`, is a parse error; a parsed prologue came from three tokens with `Prol.` or `Prol`; a parsed chapter came from two tokens without a `Prol` prefix |
| RbRefs.ParseRbRef | internal/plan/rbref.go:134-243 | every reference it returns is well-formed: a prologue reference has verses and no chapter, a chapter reference has a chapter from 1 to 73, and verses are positive `int64` values with an end, when present, strictly after the start |
| RbRefs.Render | internal/plan/rbref.go:112-132 | every rendering starts with `RB `, and a prologue reference's with `RB Prol. ` |
| RbRefs.PrologueNeedsVerses | internal/plan/rbref.go:160-169 | a two-token reference whose second token starts with `Prol` is a parse error |
| RbRefs.ChapterTokenDots | internal/plan/rbref.go:170-179 | a chapter token with more than one dot is a parse error |
| RbRefs.ChapterForm | internal/plan/rbref.go:170-191 | `RB c` is chapter c without verses when c is in [1,73], a validation error above 73, and a parse error when c is not a positive integer |
| RbRefs.ChapterVerseForm | internal/plan/rbref.go:170-203 | `RB c.v` reads the chapter, then the verses, and validates only once both are read |
| RbRefs.ChapterVerseToken | internal/plan/rbref.go:137-160 | `RB c.v` is read as the single chapter token `c.v` |
| RbRefs.ChapterVerseParts | internal/plan/rbref.go:170-203 | the chapter token `c.v` is split at its dot into chapter and verse text, each parsed in turn |
| RbRefs.PrologueForm | internal/plan/rbref.go:207-226 | `RB Prol. v` and `RB Prol v` give the prologue verses; an empty verse text is a validation error |
| RbRefs.RenderThenParse | internal/plan/rbref.go:112-243 | parsing the rendering of any well-formed reference gives back that reference |
| RbRefs.ParseRenderParse | internal/plan/rbref.go:112-243 | for every successfully parsed text, parsing its rendering gives the same reference |
| RbRefs.RenderInjective | internal/plan/rbref.go:112-132 | distinct well-formed references render to distinct texts |
| RbRefs.VerseRoundTrip | internal/plan/rbref.go:245-298 | the rendered verse text of a well-formed range parses back to that range |
| RbRefs.PositiveRoundTrip | internal/plan/rbref.go:300-322 | a positive int64 rendered with `%d` parses back as itself |
| RbRefs.VerseTextShape | internal/plan/rbref.go:113-119 | a rendered verse text starts with a digit and contains no space, dot, hyphen or em-dash |
| RbRefs.PrologueRoundTrip | internal/plan/rbref.go:207-226 | a rendered prologue reference parses back to itself |
| RbRefs.ChapterRoundTrip | internal/plan/rbref.go:160-204 | a rendered chapter reference, with or without verses, parses back to itself |
| RbRefExamples.PrologueOne | internal/plan/rbref_test.go:67-72 | `RB Prol. 1` is prologue verse 1 |
| RbRefExamples.PrologueOneToSeven | internal/plan/rbref_test.go:73-78 | `RB Prol. 1–7` is prologue verses 1 to 7 |
| RbRefExamples.PrologueWithoutDot | internal/plan/rbref_test.go:14 | `RB Prol 1` is accepted as prologue verse 1 |
| RbRefExamples.ChapterVerse | internal/plan/rbref_test.go:15 | `RB 48.1` is chapter 48, verse 1 |
| RbRefExamples.ChapterVerses | internal/plan/rbref_test.go:16 | `RB 48.1–9` is chapter 48, verses 1 to 9 |
| RbRefExamples.ChapterOnly | internal/plan/rbref_test.go:17 | `RB 4` is chapter 4 without verses |
| RbRefExamples.ChapterOneOnly | internal/plan/rbref.go:170-191 | `RB 1` is chapter 1 without verses |
| RbRefExamples.ChapterTwoVerseThree | internal/plan/rbref.go:170-203 | `RB 2.3` is chapter 2, verse 3 |
| RbRefExamples.PFourRejected | internal/plan/rbref.go:160-184 | `RB P4` does not start with `Prol`, so it is read as a chapter, and `P4` is not a number: a parse error |
| RbRefExamples.ChapterFourVerses | internal/plan/rbref_test.go:18-20 | `RB 4.72` followed by a hyphen, en-dash or em-dash and `74` is chapter 4, verses 72 to 74 |
| RbRefExamples.ChapterHyphen | internal/plan/rbref_test.go:18 | `RB 4.72-74` is accepted, the hyphen read as an en-dash |
| RbRefExamples.ChapterEmDash | internal/plan/rbref_test.go:19 | `RB 48.1—9` is accepted, the em-dash read as an en-dash |
| RbRefExamples.ChapterEnDash | internal/plan/rbref_test.go:20 | `RB 4.72–74` is chapter 4, verses 72 to 74 |
| RbRefExamples.EmptyText | internal/plan/rbref_test.go:38 | the empty text is a parse error |
| RbRefExamples.ChapterZero | internal/plan/rbref_test.go:39 | `RB 0.1` is rejected: 0 is not a positive integer |
| RbRefExamples.ChapterTooLarge | internal/plan/rbref_test.go:40 | `RB 74.1` is rejected by validation |
| RbRefExamples.VerseZeroRejected | internal/plan/rbref_test.go:41 | `RB 48.0` is rejected: verse 0 is not a positive integer |
| RbRefExamples.ReversedRange | internal/plan/rbref_test.go:42 | `RB 48.9–1` is rejected by validation |
| RbRefExamples.ReversedPrologue | internal/plan/rbref_test.go:43 | `RB Prol. 3–2` is rejected by validation |
| RbRefExamples.NotAChapter | internal/plan/rbref_test.go:44 | `RB foo` is a parse error |
| RbRefExamples.PlusSignAccepted | internal/plan/rbref.go:300-301 | `RB +4` parses as chapter 4 |
| RbRefExamples.EmptyVerseAfterDot | internal/plan/rbref.go:192-203 | `RB 48.` parses as chapter 48 without verses |
| RbRefExamples.DoubleSpaceRejected | internal/plan/rbref.go:137 | `RB  4` splits into three tokens, the second empty, and is a parse error |
| RbRefExamples.PrologueWithoutVerses | internal/plan/rbref.go:160-169 | `RB Prol.` is a parse error |
| RbRefExamples.PrologueEmptyVerses | internal/plan/rbref.go:76-81 | `RB Prol. ` has an empty verse text and is rejected by validation |
| RbRefExamples.VersesSame | internal/plan/rbref.go:289-291 | `5–5` is the single verse 5 |
| RbRefExamples.VersesThreeParts | internal/plan/rbref.go:254-262 | `1–2–3` is a parse error |
| RbRefExamples.CanonicalRendering | internal/compile/compiler_test.go:117 | `RB 8.3` parses and renders back identically |
| RbRefExamples.HyphenRendersAsEnDash | internal/plan/rbref.go:116-118 | chapter 4, verses 72 to 74 renders with an en-dash |
| RbRefExamples.PrologueRendering | internal/plan/rbref.go:122-123 | prologue verses 1 to 7 renders as `RB Prol. 1–7` |
| Plans.ParseRefs | internal/plan/entry.go:19-26 | succeeds exactly when every string parses; the result has the same length and holds each string's parse at its index |
| Plans.FirstFailureReported | internal/plan/entry.go:20-24 | when the first failing string is at index i, its error is the result |
| Plans.Expand | internal/plan/entry.go:18-32 | succeeds exactly when every reference parses; the key is unset, cue and tags are copied, the references are the parses in order, all well-formed; an empty list expands to an empty list |
| Plans.ExpandRenderRoundTrip | internal/plan/entry.go:18-32 | rendering an expanded entry's references and expanding again gives the same entry |
| Plans.ParseRefsExact | internal/plan/entry.go:19-26 | strings whose parses are given values expand to exactly those values |
| Plans.ValidateWeekdays | internal/plan/plan.go:138-182 | passes exactly when all of `mon`…`sun` are among the keys; a failure names a missing day, and every day checked before it is present |
| Plans.FirstMissing | internal/plan/plan.go:139-181 | the ordered checks of required names: pass exactly when all are present, otherwise the first one missing |
| Plans.ValidateWeekdayEntries | internal/plan/plan.go:83-97 | passes exactly when every weekday entry expands; a failure names a weekday of the season whose entry does not expand |
| Plans.ValidateSeason | internal/plan/plan.go:73-133 | a season's fault names that season |
| Plans.SeasonIff | internal/plan/plan.go:73-133 | a season passes, in any weekday order, exactly when its name is non-empty, every entry and the fallback expand, it has at most 7 entries, fewer than 7 only with a fallback, and 7 without a fallback only when they are `mon`…`sun` |
| Plans.ValidateSeasons | internal/plan/plan.go:73-134 | the season loop's fault is the fault of one of the visited seasons |
| Plans.SeasonsIff | internal/plan/plan.go:73-134 | the season loop passes exactly when every season passes |
| Plans.ValidatePlan | internal/plan/plan.go:65-136 | defaults that do not expand fail first, with the defaults fault; any other fault names a season of the plan |
| Plans.ValidateIff | internal/plan/plan.go:65-136 | validation passes exactly when the defaults expand and every season passes |
| Plans.OrderIrrelevant | internal/plan/plan.go:73 | whether validation passes does not depend on the map iteration order |
| Plans.FaultOfFailure | internal/plan/plan.go:65-136 | every fault is of kind invalid-plan-entry; the defaults fault occurs exactly when the defaults do not expand; any other fault names a season that does not pass |
| Plans.RequiredWeekdaysDistinct | internal/plan/plan.go:138-181 | the seven required weekday keys are distinct |
| Plans.SevenWeekdaysExactly | internal/plan/plan.go:126-133 | a passing season with 7 entries and no fallback has exactly the keys `mon`…`sun` |
| PlanExamples.FullSeasonAccepted | internal/plan/plan_test.go:114-121 | the seven short keys without a fallback pass |
| PlanExamples.PartialSeasonAccepted | internal/plan/plan_test.go:105-112 | partial weekdays with a fallback pass |
| PlanExamples.IncompleteSeasonRejected | internal/plan/plan_test.go:69-76 | partial weekdays without a fallback fail |
| PlanExamples.EmptySeasonRejected | internal/plan/plan_test.go:96-103 | no weekdays and no fallback fail |
| PlanExamples.CrowdedSeasonRejected | internal/plan/plan_test.go:87-94 | eight weekday entries fail, even with a fallback |
| PlanExamples.MisspeltSeasonRejected | internal/plan/plan.go:126-133 | seven keys, one of them not a required day, without a fallback fail |
| PlanExamples.BogusSeasonNameAccepted | internal/plan/plan.go:73-80 | a non-empty name that is no season passes; an empty name fails |
| PlanExamples.BadFallbackRejected | internal/plan/plan.go:98-105 | a fallback that does not expand fails its season |
| PlanExamples.BadEntryFails | internal/plan/entry.go:20-24 | an entry holding `RB foo` fails to expand with a parse error |
| PlanExamples.AdventFirst | internal/plan/plan.go:73-125 | with Advent visited first, the reported fault is Advent's missing fallback |
| PlanExamples.LentFirst | internal/plan/plan.go:73-111 | with Lent visited first, the reported fault is Lent's lack of entries |
| PlanExamples.ReadingOneExpands | internal/compile/compiler_test.go:832-835 | the fixtures' defaults `Default Reading` with `RB 1` expand to chapter 1 |
| PlanExamples.AdventFallbackExpands | internal/compile/compiler_test.go:785-788 | the fixture's Advent fallback with `RB 2.3` expands to chapter 2, verse 3 |
| PlanExamples.WeekdayOverrideAdventDays | internal/compile/compiler_test.go:767-793 | on the weekday-override fixture (season keys `mon`, `tue`, `sun` plus a fallback) every Advent day, whatever its weekday, compiles to the fallback `Advent Fallback` with `RB 2.3`, because `Compile` looks up `Monday`…`Sunday` |
| PlanExamples.DefaultFallbackDays | internal/compile/compiler_test.go:825-846 | on the default-fallback fixture (Advent keyed `mon`…`sun`, no fallback) every day of every season compiles to the defaults `Default Reading` with `RB 1` |
| PlanExamples.FullNameAccepted | internal/plan/plan.go:73-133 | a plan whose Advent season has one entry keyed `Monday` plus a fallback, and whose Lent season has the seven short keys, passes validation |
| PlanExamples.FullNameAdventDays | internal/compile/compiler.go:27-53 | with full weekday names as keys, Monday in Advent takes its weekday entry and Wednesday takes the fallback |
| PlanExamples.LentDays | internal/compile/compiler.go:27-43 | every Lent day of a season keyed `mon`…`sun` without a fallback gets the defaults |
| PlanExamples.EasterDays | internal/compile/compiler.go:22-25 | a season absent from the plan gets the defaults |
| PlanExamples.BadDefaultsFail | internal/compile/compiler.go:10-14 | defaults that do not expand fail a day that a weekday entry covers |
| PlanExamples.BadWeekdayFails | internal/compile/compiler.go:46-49 | a weekday entry that does not expand fails its day |
| Compiler.Compile | internal/compile/compiler.go:9-53 | defaults that do not expand are the error; otherwise the result is the governing entry's expansion stamped with the key; success always carries the key and well-formed references |
| Compiler.Governing | internal/compile/compiler.go:22-44 | the entry a day is compiled from: the defaults when its season is absent from the plan, and otherwise the defaults, a weekday entry of its season, or its season's fallback |
| Compiler.SeasonAbsent | internal/compile/compiler.go:22-25 | a season missing from the plan gets the expanded defaults |
| Compiler.WeekdayWins | internal/compile/compiler.go:27-52 | a weekday entry of the day's season wins over the fallback and the defaults |
| Compiler.FallbackWins | internal/compile/compiler.go:28-41 | without a weekday entry, the fallback wins over the defaults |
| Compiler.DefaultsLast | internal/compile/compiler.go:43 | without a weekday entry or fallback, the defaults apply |
| Compiler.DefaultsFirst | internal/compile/compiler.go:10-14 | defaults that do not expand fail every day, even one a weekday entry or fallback covers |
| Compiler.NoFallThrough | internal/compile/compiler.go:30-49 | a governing weekday entry or fallback that does not expand is an error, never replaced by the defaults |
| Compiler.ResultFromGoverning | internal/compile/compiler.go:15-50 | a compiled entry has the input key, the governing entry's cue and tags, and its reference strings parsed in order |
| Compiler.ValidatedPlanCompiles | internal/plan/plan.go:65-136 | every day compiles against a plan that passes validation |
| Compiler.GoverningExpands | internal/plan/plan.go:91-105 | the governing entry of a validated plan expands |
| Compiler.WeekdayNamesNotRequired | internal/calendar/calendar.go:33-41 | no weekday constant is spelled like a required short key |
| Compiler.ShortWeekdayKeysNeverMatch | internal/compile/compiler.go:27-43 | a season keyed only by the short names and without a fallback compiles every day to the defaults |

## Left out

- Plan loading (`LoadPlan`, `LoadAndValidatePlan`): file reading and YAML decoding are I/O and a third-party library. Plans are given as values.
- The duplicate-weekday check of `Plan.Validate` (plan.go:84-89): keys of a Go map are distinct, so the check can never fire.
- Error messages, `Error()`/`Unwrap` and error causes: only the error kinds are modelled. `PlanFault` records which check failed, standing in for the message text.
- The output writers (Markdown, iCalendar), the command-line layer and the wall-clock "today": I/O and foreign libraries.
- The struct-tag validator library: the `DayKey` tags are the predicate `Calendar.ValidDayKey`. Its ISO 8601 check is taken to be the `time.Parse` layout check.
- `time.Local`, `Truncate(24*time.Hour)`, and the float `Hours()/24` with `math.Floor` in `GetRomanSeasonWeek`: replaced by exact integer day numbers, which assumes UTC day boundaries. `util.DateFormat` is not part of this model; it is taken to be `2006-01-02`.
- Season names outside the seven constants. `GetRomanSeasonWeek` takes any `LiturgicalSeason` string (roman.go:187-191). The model's `Season` is a closed datatype, so it cannot pass such a name. In the source, `getRomanSeasonStartDate` then takes its `default` branch (roman.go:271-272) and returns the zero `time.Time` with no error. `parsed.Sub` saturates at the largest `time.Duration`, and the call returns a meaningless week number with no error: about 15251 for `2025-03-09` with the season `Bogus`.
- The `default` branch of the weekday switch (roman.go:180-181): it is unreachable, because `time.Weekday` only takes the seven values the switch lists. The `default` of the month switch (roman.go:149-150) is reachable and modelled: it gives Ordinary Time.
- `NewRbRef`: it only forwards to `parseRbRef`, so `ParseRbRef` stands for both.
- `RbRef.String` for malformed references (`RB (invalid chapter reference)`): `Render` is only reasoned about for well-formed references, the only ones a parse produces.
- Compile's determinism (the output-stability test): `Compile` is a function, so equal inputs give equal outputs by construction.
- RbRefs.ParseRbRef: its own contract states only that a result is well-formed. The grammar is stated by `ParseShape`, the form lemmas and the round-trip lemmas.
- Plans.ValidateSeason: its contract states only that a fault names the season; its exact pass condition is `Plans.SeasonIff`.

- Decimal.ParseInt64: its own contract states only the `int64` range of an accepted value. Which texts it accepts is stated through `RbRefs.ParsePositiveInt` and `Decimal.ParseInt64PlusSign`.
- Decimal.PadZero: its own contract states the digit shape, not the value. The value of a number below 100 is `Decimal.PadZeroTwoDigits`.
- RbRefs.Render: its own contract states only the prefix. That the rendering determines the reference is `RbRefs.RenderThenParse` and `RbRefs.RenderInjective`.
- Civil.FormatDate: its own contract states only the layout's shape. That the text is the date is `Civil.FormatThenParse`.
- Compiler.Governing: its own contract states where the entry comes from, not which one is chosen. The exact choice is stated by `Compiler.SeasonAbsent`, `Compiler.WeekdayWins`, `Compiler.FallbackWins` and `Compiler.DefaultsLast`.
