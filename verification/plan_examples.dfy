/** Plans like the fixtures of the plan and compiler tests, validated and
    compiled. Entries without references expand on their own; one entry
    carries `RB foo`, which does not parse. */
module PlanExamples {
  import opened Wrappers
  import opened Calendar
  import opened RbRefs
  import opened Plans
  import opened Compiler
  import opened RbRefExamples

  /** An entry with a cue and no references. */
  function Cue(cue: string): PlanEntry {
    PlanEntry(cue, [], None)
  }

  /** An entry whose one reference does not parse. */
  const BadEntry: PlanEntry := PlanEntry("Broken", ["RB foo"], None)

  lemma BadEntryFails()
    ensures Expand(BadEntry) == Failure(ParseFailed)
  {
    NotAChapter();
    assert ParseRefs(["RB foo"][1..]) == Success([]);
  }

  const ShortWeek: map<string, PlanEntry> := map[
    "mon" := Cue("Monday"), "tue" := Cue("Tuesday"), "wed" := Cue("Wednesday"),
    "thu" := Cue("Thursday"), "fri" := Cue("Friday"), "sat" := Cue("Saturday"), "sun" := Cue("Sunday")]

  /** A season of the seven short weekday keys and no fallback. */
  const FullSeason: SeasonPlan := SeasonPlan(ShortWeek, None)

  /** A season of two weekday keys and a fallback. */
  const PartialSeason: SeasonPlan := SeasonPlan(map["mon" := Cue("Monday"), "tue" := Cue("Tuesday")], Some(Cue("Fallback")))

  /** A season of two weekday keys and no fallback. */
  const IncompleteSeason: SeasonPlan := SeasonPlan(map["mon" := Cue("Monday"), "tue" := Cue("Tuesday")], None)

  /** A season of eight weekday keys. */
  const CrowdedSeason: SeasonPlan := SeasonPlan(ShortWeek["extra" := Cue("Extra")], Some(Cue("Fallback")))

  /** A season of seven keys, one misspelt, and no fallback. */
  const MisspeltSeason: SeasonPlan := SeasonPlan(ShortWeek - {"sun"} + map["sunday" := Cue("Sunday")], None)

  lemma ShortWeekKeys()
    ensures ShortWeek.Keys == {"mon", "tue", "wed", "thu", "fri", "sat", "sun"}
    ensures |ShortWeek| == 7
  {
    assert ShortWeek.Keys == {"mon", "tue", "wed", "thu", "fri", "sat", "sun"};
  }

  /** Seven short keys without a fallback pass validation. */
  lemma FullSeasonAccepted()
    ensures SeasonOk("Advent", FullSeason)
  {
    ShortWeekKeys();
    ShortWeekExpands();
  }

  lemma ShortWeekExpands()
    ensures forall d :: d in ShortWeek ==> Expand(ShortWeek[d]).Success?
  {
    forall d | d in ShortWeek
      ensures ShortWeek[d].rb == []
    {
    }
  }

  /** Partial weekdays with a fallback pass. */
  lemma PartialSeasonAccepted()
    ensures SeasonOk("Lent", PartialSeason)
  {
    assert PartialSeason.weekdays.Keys == {"mon", "tue"};
  }

  /** Partial weekdays without a fallback fail. */
  lemma IncompleteSeasonRejected()
    ensures !SeasonOk("Lent", IncompleteSeason)
  {
    assert IncompleteSeason.weekdays.Keys == {"mon", "tue"};
  }

  /** No weekdays and no fallback fail. */
  lemma EmptySeasonRejected()
    ensures !SeasonOk("Lent", SeasonPlan(map[], None))
  {
  }

  /** Eight weekday keys fail even with a fallback. */
  lemma CrowdedSeasonRejected()
    ensures !SeasonOk("Lent", CrowdedSeason)
  {
    ShortWeekKeys();
    assert CrowdedSeason.weekdays.Keys == ShortWeek.Keys + {"extra"};
    assert |CrowdedSeason.weekdays| == 8;
  }

  /** Seven keys without `sun` and without a fallback fail. */
  lemma MisspeltSeasonRejected()
    ensures !SeasonOk("Lent", MisspeltSeason)
  {
    ShortWeekKeys();
    assert "sun" !in MisspeltSeason.weekdays;
    assert "sun" in RequiredWeekdays;
  }

  /** Any non-empty season name is accepted: `Bogus` is not a season, but
      `Plan.Validate` checks the name only for emptiness. */
  lemma BogusSeasonNameAccepted()
    ensures SeasonOk("Bogus", PartialSeason)
    ensures !SeasonOk("", PartialSeason)
  {
    PartialSeasonAccepted();
  }

  /** A fallback that does not expand fails its season. */
  lemma BadFallbackRejected()
    ensures !SeasonOk("Lent", SeasonPlan(map[], Some(BadEntry)))
  {
    BadEntryFails();
  }

  // ---------------------------------------------------------------------------
  // The precedence fixtures of the compiler tests

  function Day(date: string, season: Season, weekday: Weekday): DayKey {
    DayKey(date, Roman, season, 1, weekday)
  }

  /** The defaults of every precedence fixture: `RB 1`. */
  const ReadingOne: PlanEntry := PlanEntry("Default Reading", ["RB 1"], None)

  /** Advent's fallback in `createWeekdayOverridePlan`: `RB 2.3`. */
  const AdventFallback: PlanEntry := PlanEntry("Advent Fallback", ["RB 2.3"], None)

  function AdventEntry(cue: string, rb: string): PlanEntry {
    PlanEntry(cue, [rb], Some(["advent"]))
  }

  /** `createWeekdayOverridePlan`: Advent has entries under the short keys
      `mon`, `tue` and `sun`, and a fallback. */
  const WeekdayOverride: Plan := Plan(1, "Weekday Override Test Plan", "test", ReadingOne, map[
    "Advent" := SeasonPlan(map[
      "mon" := AdventEntry("Advent Monday Override", "RB 2.1"),
      "tue" := AdventEntry("Advent Tuesday Override", "RB 2.2"),
      "sun" := AdventEntry("Sunday in Advent", "RB 3.1")], Some(AdventFallback))])

  /** `createDefaultFallbackPlan`: Advent has entries under all seven short
      keys and no fallback; no other season is planned. */
  const DefaultFallback: Plan := Plan(1, "Default Fallback Test Plan", "test", ReadingOne, map[
    "Advent" := SeasonPlan(map[
      "mon" := AdventEntry("Advent Monday", "RB 2.1"),
      "tue" := AdventEntry("Advent Tuesday", "RB 2.2"),
      "wed" := AdventEntry("Advent Wednesday", "RB 2.3"),
      "thu" := AdventEntry("Advent Thursday", "RB 2.4"),
      "fri" := AdventEntry("Advent Friday", "RB 2.5"),
      "sat" := AdventEntry("Advent Saturday", "RB 2.6"),
      "sun" := AdventEntry("Sunday in Advent", "RB 3.1")], None)])

  /** An entry of one reference that parses expands to that reference. */
  lemma ExpandOne(e: PlanEntry, x: RbRef)
    requires |e.rb| == 1 && ParseRbRef(e.rb[0]) == Success(x)
    ensures Expand(e) == Success(FormattedEntry(None, e.cue, [x], e.tags))
  {
    assert AllParse(e.rb);
    var f := Expand(e).value;
    assert f.rb == [x];
  }

  lemma ReadingOneExpands()
    ensures Expand(ReadingOne) == Success(FormattedEntry(None, "Default Reading", [RbRef(Chapter, Some(1), None)], None))
  {
    ChapterOneOnly();
    ExpandOne(ReadingOne, RbRef(Chapter, Some(1), None));
  }

  lemma AdventFallbackExpands()
    ensures Expand(AdventFallback) == Success(FormattedEntry(None, "Advent Fallback", [RbRef(Chapter, Some(2), Some(VerseRange(3, None)))], None))
  {
    ChapterTwoVerseThree();
    ExpandOne(AdventFallback, RbRef(Chapter, Some(2), Some(VerseRange(3, None))));
  }

  /** Every Advent day of `createWeekdayOverridePlan` compiles to the
      fallback `RB 2.3`, Monday and Tuesday included: the lookup uses the
      full weekday name, and none of `mon`, `tue`, `sun` is one. The test
      expects the Monday and Tuesday entries there. */
  lemma WeekdayOverrideAdventDays(w: Weekday)
    ensures Compile(Day("2025-12-01", Advent, w), WeekdayOverride) ==
      Success(FormattedEntry(Some(Day("2025-12-01", Advent, w)), "Advent Fallback", [RbRef(Chapter, Some(2), Some(VerseRange(3, None)))], None))
  {
    ReadingOneExpands();
    AdventFallbackExpands();
    assert WeekdayOverride.seasons["Advent"].weekdays.Keys == {"mon", "tue", "sun"};
    WeekdayNamesNotRequired(w);
    FallbackWins(Day("2025-12-01", Advent, w), WeekdayOverride);
  }

  /** Every day of `createDefaultFallbackPlan` compiles to the defaults
      `RB 1`: a season other than Advent is not planned, and Advent's short
      keys never match while it has no fallback. The test expects the Monday
      entry for Monday in Advent. */
  lemma DefaultFallbackDays(s: Season, w: Weekday)
    ensures Compile(Day("2025-06-09", s, w), DefaultFallback) ==
      Success(FormattedEntry(Some(Day("2025-06-09", s, w)), "Default Reading", [RbRef(Chapter, Some(1), None)], None))
  {
    ReadingOneExpands();
    if s == Advent {
      assert DefaultFallback.seasons["Advent"].weekdays.Keys == {"mon", "tue", "wed", "thu", "fri", "sat", "sun"};
      ShortWeekdayKeysNeverMatch(Day("2025-06-09", s, w), DefaultFallback);
    } else {
      assert SeasonName(s) != "Advent";
      SeasonAbsent(Day("2025-06-09", s, w), DefaultFallback);
    }
  }

  // ---------------------------------------------------------------------------
  // A plan keyed by the full weekday name

  /** A variant of `createWeekdayOverridePlan` whose Advent Monday entry is
      keyed `Monday`, the string value of the weekday constant, which is the
      key the lookup does find; Lent has only the short keys. */
  const FullNamePlan: Plan := Plan(1, "Test Plan", "test", Cue("Default Reading"), map[
    "Advent" := SeasonPlan(map["Monday" := Cue("Advent Monday Override")], Some(Cue("Advent Fallback"))),
    "Lent" := FullSeason])

  /** Validation does not object to the key `Monday`: with a fallback, any
      weekday keys pass. */
  lemma FullNameAccepted()
    ensures PlanOk(FullNamePlan)
  {
    FullSeasonAccepted();
    assert FullNamePlan.seasons.Keys == {"Advent", "Lent"};
    assert FullNamePlan.seasons["Advent"].weekdays.Keys == {"Monday"};
  }

  /** Monday in Advent takes the entry keyed `Monday`; Wednesday takes the
      fallback. */
  lemma FullNameAdventDays()
    ensures Compile(Day("2025-12-01", Advent, Monday), FullNamePlan) == Success(FormattedEntry(Some(Day("2025-12-01", Advent, Monday)), "Advent Monday Override", [], None))
    ensures Compile(Day("2025-12-01", Advent, Wednesday), FullNamePlan) == Success(FormattedEntry(Some(Day("2025-12-01", Advent, Wednesday)), "Advent Fallback", [], None))
  {
  }

  /** Lent's entries are keyed `mon` to `sun`, so no Lent day finds its
      weekday entry and, without a fallback, every Lent day gets the defaults. */
  lemma LentDays(w: Weekday)
    ensures Compile(Day("2025-12-01", Lent, w), FullNamePlan) == Success(FormattedEntry(Some(Day("2025-12-01", Lent, w)), "Default Reading", [], None))
  {
    ShortWeekKeys();
    ShortWeekdayKeysNeverMatch(Day("2025-12-01", Lent, w), FullNamePlan);
  }

  /** A season absent from the plan gets the defaults. */
  lemma EasterDays()
    ensures Compile(Day("2025-12-01", Easter, Sunday), FullNamePlan) == Success(FormattedEntry(Some(Day("2025-12-01", Easter, Sunday)), "Default Reading", [], None))
  {
  }

  /** Defaults that do not expand fail a day the weekday entry would cover. */
  lemma BadDefaultsFail()
    ensures Compile(Day("2025-12-01", Advent, Monday), FullNamePlan.(defaults := BadEntry)) == Failure(ParseFailed)
  {
    BadEntryFails();
  }

  /** A weekday entry that does not expand fails its day; the defaults do
      not stand in for it. */
  lemma BadWeekdayFails()
    ensures Compile(Day("2025-12-01", Advent, Monday), FullNamePlan.(seasons := map["Advent" := SeasonPlan(map["Monday" := BadEntry], None)])) == Failure(ParseFailed)
  {
    BadEntryFails();
  }

  // ---------------------------------------------------------------------------
  // Iteration order

  /** Two faulty seasons: Advent lacks a fallback, Lent has nothing at all. */
  const TwoFaults: Plan := Plan(1, "Test Plan", "test", Cue("Default Reading"), map[
    "Advent" := IncompleteSeason, "Lent" := SeasonPlan(map[], None)])

  const TwoFaultsDays: map<string, seq<string>> := map["Advent" := ["mon", "tue"], "Lent" := []]

  lemma TwoFaultsOrders()
    ensures Orders(TwoFaults, ["Advent", "Lent"], TwoFaultsDays)
    ensures Orders(TwoFaults, ["Lent", "Advent"], TwoFaultsDays)
  {
    assert TwoFaults.seasons.Keys == {"Advent", "Lent"};
    assert IncompleteSeason.weekdays.Keys == {"mon", "tue"};
  }

  /** The plan fails in either order, but the fault reported is that of the
      first season visited: Advent's when Advent comes first ... */
  lemma AdventFirst()
    ensures Orders(TwoFaults, ["Advent", "Lent"], TwoFaultsDays)
    ensures ValidatePlan(TwoFaults, ["Advent", "Lent"], TwoFaultsDays) == Fail(MissingFallback("Advent"))
  {
    TwoFaultsOrders();
    IncompleteSeasonFault();
  }

  /** ... and Lent's when Lent comes first. */
  lemma LentFirst()
    ensures Orders(TwoFaults, ["Lent", "Advent"], TwoFaultsDays)
    ensures ValidatePlan(TwoFaults, ["Lent", "Advent"], TwoFaultsDays) == Fail(NoEntries("Lent"))
  {
    TwoFaultsOrders();
  }

  lemma IncompleteSeasonFault()
    ensures ValidateSeason("Advent", IncompleteSeason, ["mon", "tue"]) == Fail(MissingFallback("Advent"))
  {
    assert IncompleteSeason.weekdays.Keys == {"mon", "tue"};
    assert |IncompleteSeason.weekdays| == 2;
  }
}
