/** The plan of internal/plan: entries whose reference strings expand into
    parsed references, the seasons that group them, and the validation a
    loaded plan must pass. */
module Plans {
  import opened Wrappers
  import opened Calendar
  import opened RbRefs

  // ---------------------------------------------------------------------------
  // Entries

  /** `PlanEntry`: a cue, reference strings, and tags that may be absent. */
  datatype PlanEntry = PlanEntry(cue: string, rb: seq<string>, tags: Option<seq<string>>)

  /** `FormattedEntry`: an entry with its references parsed. The key is
      `None` where the Go struct holds the zero `DayKey`. */
  datatype FormattedEntry = FormattedEntry(key: Option<DayKey>, cue: string, rb: seq<RbRef>, tags: Option<seq<string>>)

  /** Every string of `refs` parses. */
  predicate AllParse(refs: seq<string>) {
    forall i :: 0 <= i < |refs| ==> ParseRbRef(refs[i]).Success?
  }

  /** The loop of `PlanEntry.Validate`: the references parsed left to right;
      the first string that does not parse stops the loop with its error. */
  function ParseRefs(refs: seq<string>): (r: Result<seq<RbRef>, RbRefError>)
    ensures r.Success? <==> AllParse(refs)
    ensures r.Success? ==> |r.value| == |refs|
    ensures r.Success? ==> forall i :: 0 <= i < |refs| ==> ParseRbRef(refs[i]) == Success(r.value[i])
  {
    if refs == [] then Success([])
    else
      var head :- ParseRbRef(refs[0]);
      var tail :- ParseRefs(refs[1..]);
      Success([head] + tail)
  }

  /** The error of a failing list is that of its first string that fails:
      the strings before it are parsed, the ones after it never are. */
  lemma {:induction false} FirstFailureReported(refs: seq<string>, i: int)
    requires 0 <= i < |refs| && AllParse(refs[..i]) && ParseRbRef(refs[i]).Failure?
    ensures ParseRefs(refs) == Failure(ParseRbRef(refs[i]).error)
  {
    if i > 0 {
      assert ParseRbRef(refs[..i][0]).Success?;
      assert refs[1..][..i - 1] == refs[..i][1..];
      FirstFailureReported(refs[1..], i - 1);
    }
  }

  /** `PlanEntry.Validate`: the expansion of an entry. Cue and tags are
      copied, the key is left unset, and a reference that does not parse
      fails the whole entry. */
  function Expand(e: PlanEntry): (r: Result<FormattedEntry, RbRefError>)
    ensures r.Success? <==> AllParse(e.rb)
    ensures r.Success? ==> r.value.key == None && r.value.cue == e.cue && r.value.tags == e.tags
    ensures r.Success? ==> |r.value.rb| == |e.rb|
    ensures r.Success? ==> forall i :: 0 <= i < |e.rb| ==> ParseRbRef(e.rb[i]) == Success(r.value.rb[i])
    ensures r.Success? ==> forall i :: 0 <= i < |e.rb| ==> WellFormed(r.value.rb[i])
    ensures e.rb == [] ==> r == Success(FormattedEntry(None, e.cue, [], e.tags))
  {
    var refs :- ParseRefs(e.rb);
    Success(FormattedEntry(None, e.cue, refs, e.tags))
  }

  /** The rendering of each parsed reference, as strings. */
  function RenderAll(refs: seq<RbRef>): (s: seq<string>)
    ensures |s| == |refs|
    ensures forall i :: 0 <= i < |refs| ==> s[i] == Render(refs[i])
  {
    if refs == [] then [] else [Render(refs[0])] + RenderAll(refs[1..])
  }

  /** An expanded entry, written back with its references rendered, expands
      to itself: no information is lost by the expansion. */
  lemma ExpandRenderRoundTrip(e: PlanEntry)
    requires Expand(e).Success?
    ensures var f := Expand(e).value;
      Expand(PlanEntry(e.cue, RenderAll(f.rb), e.tags)) == Success(f)
  {
    var f := Expand(e).value;
    var back := RenderAll(f.rb);
    forall i | 0 <= i < |back|
      ensures ParseRbRef(back[i]) == Success(f.rb[i])
    {
      RenderThenParse(f.rb[i]);
    }
    ParseRefsExact(back, f.rb);
  }

  /** Strings that each parse to the matching reference parse, as a list, to
      exactly those references. */
  lemma {:induction false} ParseRefsExact(refs: seq<string>, parsed: seq<RbRef>)
    requires |refs| == |parsed|
    requires forall i :: 0 <= i < |refs| ==> ParseRbRef(refs[i]) == Success(parsed[i])
    ensures ParseRefs(refs) == Success(parsed)
  {
    if refs != [] {
      ParseRefsExact(refs[1..], parsed[1..]);
      assert parsed == [parsed[0]] + parsed[1..];
    }
  }

  // ---------------------------------------------------------------------------
  // Plans

  /** `SeasonPlan`: weekday entries keyed by name, and an optional fallback. */
  datatype SeasonPlan = SeasonPlan(weekdays: map<string, PlanEntry>, fallback: Option<PlanEntry>)

  /** `Plan`: the default entry and the season plans keyed by season name. */
  datatype Plan = Plan(version: int, work: string, witnessName: string, defaults: PlanEntry, seasons: map<string, SeasonPlan>)

  /** Why `Plan.Validate` rejects a plan: one case per message it builds.
      Every one of them wraps the sentinel `ErrInvalidPlanEntry`. */
  datatype PlanFault =
    | InvalidDefault
    | InvalidSeasonName(season: string)
    | InvalidWeekdayEntry(season: string, weekday: string)
    | InvalidFallback(season: string)
    | NoEntries(season: string)
    | TooManyWeekdays(season: string)
    | MissingFallback(season: string)
    | InvalidWeekdays(season: string)
    | MissingWeekday(weekday: string)

  /** The sentinel errors of internal/plan/errors.go. */
  datatype PlanErrorKind = InvalidRbRefFormat | InvalidStartVerse | InvalidEndVerse | PlanFileRead | ParsePlanFailed | InvalidPlanEntry

  /** `errors.Is` on a fault of `Plan.Validate`. */
  function FaultKind(f: PlanFault): PlanErrorKind {
    InvalidPlanEntry
  }

  /** The weekday keys `validateWeekdays` asks for, in the order it asks. */
  const RequiredWeekdays: seq<string> := ["mon", "tue", "wed", "thu", "fri", "sat", "sun"]

  /** Every one of `names` is among `keys`: `generic.Contains` for each. */
  predicate Covers(keys: seq<string>, names: seq<string>) {
    forall d :: d in names ==> d in keys
  }

  /** `validateWeekdays`: the first required weekday the keys lack, if any. */
  function ValidateWeekdays(keys: seq<string>): (o: Outcome<PlanFault>)
    ensures o.Pass? <==> Covers(keys, RequiredWeekdays)
    ensures o.Fail? ==> o.error.MissingWeekday? && o.error.weekday !in keys
    ensures o.Fail? ==> exists i :: 0 <= i < 7 && RequiredWeekdays[i] == o.error.weekday && Covers(keys, RequiredWeekdays[..i])
  {
    FirstMissing(RequiredWeekdays, keys)
  }

  /** The first of `required` not among `keys`. */
  function FirstMissing(required: seq<string>, keys: seq<string>): (o: Outcome<PlanFault>)
    ensures o.Pass? <==> Covers(keys, required)
    ensures o.Fail? ==> o.error.MissingWeekday? && o.error.weekday !in keys
    ensures o.Fail? ==> exists i :: 0 <= i < |required| && required[i] == o.error.weekday && Covers(keys, required[..i])
  {
    if required == [] then Pass
    else if required[0] !in keys then
      assert Covers(keys, required[..0]);
      Fail(MissingWeekday(required[0]))
    else
      var rest := FirstMissing(required[1..], keys);
      if rest.Fail? then
        var i :| 0 <= i < |required[1..]| && required[1..][i] == rest.error.weekday && Covers(keys, required[1..][..i]);
        assert required[..i + 1] == [required[0]] + required[1..][..i];
        rest
      else
        assert forall d :: d in required ==> d == required[0] || d in required[1..];
        rest
  }

  /** `order` lists every key of `keys` exactly once: an iteration order of a Go map. */
  ghost predicate Enumerates<V>(order: seq<string>, keys: map<string, V>) {
    && (forall i, j :: 0 <= i < j < |order| ==> order[i] != order[j])
    && (forall k :: k in order <==> k in keys)
  }

  /** The weekday loop of one season: each entry in iteration order; the
      first that does not expand names its weekday. */
  function ValidateWeekdayEntries(season: string, weekdays: map<string, PlanEntry>, days: seq<string>): (o: Outcome<PlanFault>)
    requires forall d :: d in days ==> d in weekdays
    ensures o.Pass? <==> forall d :: d in days ==> Expand(weekdays[d]).Success?
    ensures o.Fail? ==>
      && o.error.InvalidWeekdayEntry? && o.error.season == season
      && o.error.weekday in days && Expand(weekdays[o.error.weekday]).Failure?
  {
    if days == [] then Pass
    else if Expand(weekdays[days[0]]).Failure? then Fail(InvalidWeekdayEntry(season, days[0]))
    else
      assert forall d :: d in days ==> d == days[0] || d in days[1..];
      ValidateWeekdayEntries(season, weekdays, days[1..])
  }

  /** The body of the season loop of `Plan.Validate`, for one season: the
      name, each weekday entry, the fallback, and then the count rules. */
  function ValidateSeason(season: string, sp: SeasonPlan, days: seq<string>): (o: Outcome<PlanFault>)
    requires Enumerates(days, sp.weekdays)
    ensures o.Fail? ==> !o.error.InvalidDefault? && !o.error.MissingWeekday? && o.error.season == season
  {
    if season == "" then Fail(InvalidSeasonName(season))
    else
      :- ValidateWeekdayEntries(season, sp.weekdays, days);
      var covered := |sp.weekdays|;
      if sp.fallback.Some? && Expand(sp.fallback.value).Failure? then Fail(InvalidFallback(season))
      else if covered == 0 && sp.fallback.None? then Fail(NoEntries(season))
      else if covered > 7 then Fail(TooManyWeekdays(season))
      else if covered < 7 && sp.fallback.None? then Fail(MissingFallback(season))
      else if covered == 7 && sp.fallback.None? && ValidateWeekdays(days).Fail? then Fail(InvalidWeekdays(season))
      else Pass
  }

  /** What a season must satisfy, independent of any iteration order. */
  predicate SeasonOk(season: string, sp: SeasonPlan) {
    && season != ""
    && (forall d :: d in sp.weekdays ==> Expand(sp.weekdays[d]).Success?)
    && (sp.fallback.Some? ==> Expand(sp.fallback.value).Success?)
    && |sp.weekdays| <= 7
    && (|sp.weekdays| < 7 ==> sp.fallback.Some?)
    && (|sp.weekdays| == 7 && sp.fallback.None? ==> forall d :: d in RequiredWeekdays ==> d in sp.weekdays)
  }

  /** What a plan must satisfy, independent of any iteration order. */
  predicate PlanOk(p: Plan) {
    && Expand(p.defaults).Success?
    && forall s :: s in p.seasons ==> SeasonOk(s, p.seasons[s])
  }

  /** Iteration orders for the season map and for each season's weekday map. */
  ghost predicate Orders(p: Plan, order: seq<string>, dayOrders: map<string, seq<string>>) {
    && Enumerates(order, p.seasons)
    && forall s :: s in p.seasons ==> s in dayOrders && Enumerates(dayOrders[s], p.seasons[s].weekdays)
  }

  /** The season loop of `Plan.Validate`: the seasons in iteration order; the
      first fault stops it. */
  function ValidateSeasons(seasons: map<string, SeasonPlan>, order: seq<string>, dayOrders: map<string, seq<string>>): (o: Outcome<PlanFault>)
    requires forall s :: s in order ==> s in seasons && s in dayOrders && Enumerates(dayOrders[s], seasons[s].weekdays)
    ensures o.Fail? ==> exists i :: 0 <= i < |order| && ValidateSeason(order[i], seasons[order[i]], dayOrders[order[i]]) == o
  {
    if order == [] then Pass
    else
      var first := ValidateSeason(order[0], seasons[order[0]], dayOrders[order[0]]);
      if first.Fail? then first
      else
        var rest := ValidateSeasons(seasons, order[1..], dayOrders);
        if rest.Fail? then
          var i :| 0 <= i < |order[1..]| && ValidateSeason(order[1..][i], seasons[order[1..][i]], dayOrders[order[1..][i]]) == rest;
          assert order[1..][i] == order[i + 1];
          rest
        else Pass
  }

  /** `Plan.Validate`: the defaults first, then every season in the given
      iteration order. */
  function ValidatePlan(p: Plan, order: seq<string>, dayOrders: map<string, seq<string>>): (o: Outcome<PlanFault>)
    requires Orders(p, order, dayOrders)
    ensures Expand(p.defaults).Failure? ==> o == Fail(InvalidDefault)
    ensures o.Fail? && o != Fail(InvalidDefault) ==> !o.error.MissingWeekday? && o.error.season in p.seasons
  {
    if Expand(p.defaults).Failure? then Fail(InvalidDefault)
    else ValidateSeasons(p.seasons, order, dayOrders)
  }

  // ---------------------------------------------------------------------------
  // Properties of validation

  /** A season passes its loop body exactly when it satisfies `SeasonOk`,
      whatever the order of its weekdays. */
  lemma SeasonIff(season: string, sp: SeasonPlan, days: seq<string>)
    requires Enumerates(days, sp.weekdays)
    ensures ValidateSeason(season, sp, days).Pass? <==> SeasonOk(season, sp)
  {
    if season != "" && ValidateWeekdayEntries(season, sp.weekdays, days).Pass? {
      assert forall d :: d in RequiredWeekdays ==> (d in days <==> d in sp.weekdays);
    }
  }

  /** The season loop passes exactly when every season it visits is `SeasonOk`. */
  lemma {:induction false} SeasonsIff(seasons: map<string, SeasonPlan>, order: seq<string>, dayOrders: map<string, seq<string>>)
    requires forall s :: s in order ==> s in seasons && s in dayOrders && Enumerates(dayOrders[s], seasons[s].weekdays)
    ensures ValidateSeasons(seasons, order, dayOrders).Pass? <==> forall s :: s in order ==> SeasonOk(s, seasons[s])
  {
    if order != [] {
      SeasonIff(order[0], seasons[order[0]], dayOrders[order[0]]);
      SeasonsIff(seasons, order[1..], dayOrders);
      assert forall s :: s in order ==> s == order[0] || s in order[1..];
    }
  }

  /** `Plan.Validate` passes exactly when the plan is `PlanOk`. */
  lemma ValidateIff(p: Plan, order: seq<string>, dayOrders: map<string, seq<string>>)
    requires Orders(p, order, dayOrders)
    ensures ValidatePlan(p, order, dayOrders).Pass? <==> PlanOk(p)
  {
    SeasonsIff(p.seasons, order, dayOrders);
  }

  /** Whether a plan passes does not depend on the map iteration order; only
      the fault reported for a failing plan may. */
  lemma OrderIrrelevant(p: Plan, order1: seq<string>, days1: map<string, seq<string>>, order2: seq<string>, days2: map<string, seq<string>>)
    requires Orders(p, order1, days1) && Orders(p, order2, days2)
    ensures ValidatePlan(p, order1, days1).Pass? <==> ValidatePlan(p, order2, days2).Pass?
  {
    ValidateIff(p, order1, days1);
    ValidateIff(p, order2, days2);
  }

  /** A failing plan fails with a fault that names a season of the plan it
      found wrong, or the defaults; every fault is an invalid plan entry. */
  lemma FaultOfFailure(p: Plan, order: seq<string>, dayOrders: map<string, seq<string>>)
    requires Orders(p, order, dayOrders) && ValidatePlan(p, order, dayOrders).Fail?
    ensures var f := ValidatePlan(p, order, dayOrders).error;
      && FaultKind(f) == InvalidPlanEntry
      && (f == InvalidDefault <==> Expand(p.defaults).Failure?)
      && (f != InvalidDefault ==> !f.MissingWeekday? && f.season in p.seasons && !SeasonOk(f.season, p.seasons[f.season]))
  {
    var f := ValidatePlan(p, order, dayOrders).error;
    if Expand(p.defaults).Success? {
      var i :| 0 <= i < |order| && ValidateSeason(order[i], p.seasons[order[i]], dayOrders[order[i]]) == Fail(f);
      SeasonIff(order[i], p.seasons[order[i]], dayOrders[order[i]]);
    }
  }

  /** The seven required weekday names, as a set, have seven members. */
  lemma RequiredWeekdaysDistinct()
    ensures |set d | d in RequiredWeekdays| == 7
  {
    forall i, j | 0 <= i < j < 7
      ensures RequiredWeekdays[i] != RequiredWeekdays[j]
    {
      assert RequiredWeekdays[i][0] != RequiredWeekdays[j][0] || RequiredWeekdays[i][1] != RequiredWeekdays[j][1];
    }
    DistinctElements(RequiredWeekdays);
  }

  /** A list without repetitions has as many distinct elements as entries. */
  lemma {:induction false} DistinctElements<T>(xs: seq<T>)
    requires forall i, j :: 0 <= i < j < |xs| ==> xs[i] != xs[j]
    ensures |set x | x in xs| == |xs|
  {
    if xs != [] {
      DistinctElements(xs[1..]);
      var rest := set x | x in xs[1..];
      assert (set x | x in xs) == rest + {xs[0]};
      assert xs[0] !in rest;
    }
  }

  /** A season that is accepted with seven weekday entries and no fallback
      keys exactly `mon` through `sun`. */
  lemma SevenWeekdaysExactly(season: string, sp: SeasonPlan)
    requires SeasonOk(season, sp) && |sp.weekdays| == 7 && sp.fallback.None?
    ensures sp.weekdays.Keys == set d | d in RequiredWeekdays
  {
    var required := set d | d in RequiredWeekdays;
    RequiredWeekdaysDistinct();
    assert required <= sp.weekdays.Keys;
    SubsetOfSameSize(required, sp.weekdays.Keys);
  }

  /** A subset as large as its superset is the whole set. */
  lemma SubsetOfSameSize<T>(a: set<T>, b: set<T>)
    requires a <= b && |a| == |b|
    ensures a == b
  {
    if a != b {
      assert !(b <= a);
      var x :| x in b && x !in a;
      SubsetCardinality(a, b - {x});
    }
  }

  /** A subset is no larger than its superset. */
  lemma {:induction false} SubsetCardinality<T>(a: set<T>, b: set<T>)
    requires a <= b
    ensures |a| <= |b|
    decreases a
  {
    if a != {} {
      var x :| x in a;
      SubsetCardinality(a - {x}, b - {x});
    }
  }
}
