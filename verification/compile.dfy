/** `Compile` of internal/compile: the entry of a plan for one day, chosen by
    three tiers (the weekday entry of the day's season, that season's
    fallback, the plan's defaults) and expanded. */
module Compiler {
  import opened Wrappers
  import opened Calendar
  import opened RbRefs
  import opened Plans

  /** The entry of `p` that governs the day `key`: the weekday entry of its
      season when the season's weekday map has the day's weekday name, else
      the season's fallback when there is one, else the defaults. Seasons and
      weekdays are looked up by the string values of their constants, as
      `string(key.Season)` and `string(key.Weekday)` do. */
  function Governing(key: DayKey, p: Plan): (e: PlanEntry)
    ensures SeasonName(key.season) !in p.seasons ==> e == p.defaults
    ensures e == p.defaults ||
      (SeasonName(key.season) in p.seasons &&
        (e in p.seasons[SeasonName(key.season)].weekdays.Values || p.seasons[SeasonName(key.season)].fallback == Some(e)))
  {
    var season := SeasonName(key.season);
    var weekday := WeekdayName(key.weekday);
    if season in p.seasons && weekday in p.seasons[season].weekdays then p.seasons[season].weekdays[weekday]
    else if season in p.seasons && p.seasons[season].fallback.Some? then p.seasons[season].fallback.value
    else p.defaults
  }

  /** An expansion with its key assigned. */
  function Stamp(r: Result<FormattedEntry, RbRefError>, key: DayKey): Result<FormattedEntry, RbRefError> {
    match r
    case Success(f) => Success(f.(key := Some(key)))
    case Failure(e) => Failure(e)
  }

  /** `Compile`: the defaults are expanded first and their failure is the
      result; then the governing entry is expanded, and its failure is the
      result too. A successful result carries the day's key. */
  function Compile(key: DayKey, p: Plan): (r: Result<FormattedEntry, RbRefError>)
    ensures Expand(p.defaults).Failure? ==> r == Failure(Expand(p.defaults).error)
    ensures Expand(p.defaults).Success? ==> r == Stamp(Expand(Governing(key, p)), key)
    ensures r.Success? ==> r.value.key == Some(key)
    ensures r.Success? ==> forall i :: 0 <= i < |r.value.rb| ==> WellFormed(r.value.rb[i])
  {
    var defaults :- Expand(p.defaults);
    var defaultEntry := defaults.(key := Some(key));
    var season := SeasonName(key.season);
    if season !in p.seasons then Success(defaultEntry)
    else
      var sp := p.seasons[season];
      var weekday := WeekdayName(key.weekday);
      if weekday !in sp.weekdays then
        if sp.fallback.Some? then
          var fallback :- Expand(sp.fallback.value);
          Success(fallback.(key := Some(key)))
        else Success(defaultEntry)
      else
        var entry :- Expand(sp.weekdays[weekday]);
        Success(entry.(key := Some(key)))
  }

  // ---------------------------------------------------------------------------
  // The three tiers

  /** A season the plan does not mention gets the defaults. */
  lemma SeasonAbsent(key: DayKey, p: Plan)
    requires SeasonName(key.season) !in p.seasons
    ensures Compile(key, p) == Stamp(Expand(p.defaults), key)
  {
  }

  /** A weekday entry of the day's season wins over the fallback and the
      defaults, once the defaults expand. */
  lemma WeekdayWins(key: DayKey, p: Plan)
    requires Expand(p.defaults).Success?
    requires SeasonName(key.season) in p.seasons
    requires WeekdayName(key.weekday) in p.seasons[SeasonName(key.season)].weekdays
    ensures Compile(key, p) == Stamp(Expand(p.seasons[SeasonName(key.season)].weekdays[WeekdayName(key.weekday)]), key)
  {
  }

  /** Without a weekday entry, the season's fallback wins over the defaults. */
  lemma FallbackWins(key: DayKey, p: Plan)
    requires Expand(p.defaults).Success?
    requires SeasonName(key.season) in p.seasons
    requires WeekdayName(key.weekday) !in p.seasons[SeasonName(key.season)].weekdays
    requires p.seasons[SeasonName(key.season)].fallback.Some?
    ensures Compile(key, p) == Stamp(Expand(p.seasons[SeasonName(key.season)].fallback.value), key)
  {
  }

  /** Without a weekday entry or a fallback, the defaults apply. */
  lemma DefaultsLast(key: DayKey, p: Plan)
    requires SeasonName(key.season) in p.seasons
    requires WeekdayName(key.weekday) !in p.seasons[SeasonName(key.season)].weekdays
    requires p.seasons[SeasonName(key.season)].fallback.None?
    ensures Compile(key, p) == Stamp(Expand(p.defaults), key)
  {
  }

  /** The defaults are expanded before anything is looked up: defaults that
      do not expand fail every day, even a day a weekday entry or fallback
      would cover. */
  lemma DefaultsFirst(key: DayKey, p: Plan)
    requires Expand(p.defaults).Failure?
    ensures Compile(key, p) == Failure(Expand(p.defaults).error)
  {
  }

  /** A weekday entry or fallback that governs the day but does not expand
      is an error: the defaults never stand in for it. */
  lemma NoFallThrough(key: DayKey, p: Plan)
    requires Expand(p.defaults).Success?
    requires Governing(key, p) != p.defaults || SeasonName(key.season) in p.seasons
    requires Expand(Governing(key, p)).Failure?
    ensures Compile(key, p) == Failure(Expand(Governing(key, p)).error)
  {
  }

  /** A compiled entry is the governing entry: its cue and tags are copied
      from it and its references are its strings, parsed in order. */
  lemma ResultFromGoverning(key: DayKey, p: Plan)
    requires Compile(key, p).Success?
    ensures var f := Compile(key, p).value; var e := Governing(key, p);
      && f.key == Some(key)
      && f.cue == e.cue && f.tags == e.tags
      && |f.rb| == |e.rb|
      && forall i :: 0 <= i < |e.rb| ==> ParseRbRef(e.rb[i]) == Success(f.rb[i])
  {
  }

  // ---------------------------------------------------------------------------
  // Validation and compilation together

  /** The governing entry of a day in a plan that passes validation expands:
      it is a weekday entry, a fallback, or the defaults, and validation
      expanded all of them. */
  lemma GoverningExpands(key: DayKey, p: Plan)
    requires PlanOk(p)
    ensures Expand(Governing(key, p)).Success?
  {
    var season := SeasonName(key.season);
    if season in p.seasons {
      assert SeasonOk(season, p.seasons[season]);
    }
  }

  /** Every day compiles against a plan that passes validation. */
  lemma ValidatedPlanCompiles(key: DayKey, p: Plan)
    requires PlanOk(p)
    ensures Compile(key, p).Success?
  {
    GoverningExpands(key, p);
  }

  /** No weekday constant is spelled like a key `validateWeekdays` asks for. */
  lemma WeekdayNamesNotRequired(w: Weekday)
    ensures WeekdayName(w) !in RequiredWeekdays
  {
    var n := WeekdayName(w);
    assert |n| >= 6;
    forall d | d in RequiredWeekdays
      ensures |d| == 3
    {
    }
  }

  /** A season keyed only by the short names `mon` to `sun` never has its
      weekday entries chosen: the lookup uses the weekday's full name. So a
      season that passes validation with exactly those seven keys and no
      fallback compiles every day to the defaults. */
  lemma ShortWeekdayKeysNeverMatch(key: DayKey, p: Plan)
    requires SeasonName(key.season) in p.seasons
    requires forall d :: d in p.seasons[SeasonName(key.season)].weekdays ==> d in RequiredWeekdays
    requires p.seasons[SeasonName(key.season)].fallback.None?
    ensures Compile(key, p) == Stamp(Expand(p.defaults), key)
  {
    WeekdayNamesNotRequired(key.weekday);
  }
}
