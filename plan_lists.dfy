/** The coach's plan lists with search and filters (pages/TrainingPlans.tsx,
    pages/NutritionPlans.tsx). The clock used for the status filter is the
    parameter `now`. */
module PlanLists {
  import opened Wrappers
  import opened Seqs
  import opened Text
  import opened Time
  import opened Catalog
  import opened PlanStatus
  import TP = TrainingPlans
  import NP = NutritionPlans
  import PlanVisibility

  /** The three dropdowns; '' means "all". */
  datatype PlanFilters = PlanFilters(weeks: string, status: string, assignment: string)

  const NO_FILTERS := PlanFilters("", "", "")

  /** The name, or a present description, contains the search term, both
      lower-cased. */
  predicate MatchesSearch(name: string, description: Option<string>, term: string)
  {
    Includes(ToLower(name), ToLower(term))
    || (description.Some? && Includes(ToLower(description.value), ToLower(term)))
  }

  /** `matchesWeeks && matchesStatus && matchesAssignment`: an empty filter
      passes; the weeks filter compares `weeks.toString()`; 'assigned' asks
      for a truthy athlete id and any other value for a falsy one. */
  predicate MatchesFilters(weeks: int, status: Status, athleteId: Option<string>, f: PlanFilters)
  {
    (f.weeks == "" || DecimalString(weeks) == f.weeks)
    && (f.status == "" || StatusName(status) == f.status)
    && (f.assignment == "" || (if f.assignment == "assigned" then Truthy(athleteId) else !Truthy(athleteId)))
  }

  predicate PlanMatches(name: string, description: Option<string>, weeks: int, start: Instant,
                        athleteId: Option<string>, term: string, f: PlanFilters, now: Instant)
  {
    MatchesSearch(name, description, term) && MatchesFilters(weeks, PlanStatusAt(now, start, weeks), athleteId, f)
  }

  function TrainingPlanMatches(term: string, f: PlanFilters, now: Instant): TP.TrainingPlan -> bool
  {
    (p: TP.TrainingPlan) => PlanMatches(p.name, p.description, p.weeks, p.startDate, p.athleteId, term, f, now)
  }

  function NutritionPlanMatches(term: string, f: PlanFilters, now: Instant): NP.NutritionPlan -> bool
  {
    (p: NP.NutritionPlan) => PlanMatches(p.name, p.description, p.weeks, p.startDate, p.athleteId, term, f, now)
  }

  // ---------------------------------------------------------------------
  // Training plans page
  // ---------------------------------------------------------------------

  /** `coachPlans`: empty without a profile id, otherwise exactly the plans
      whose coach is the profile, in order. */
  function CoachPlans(profile: Option<User>, plans: seq<TP.TrainingPlan>): (r: seq<TP.TrainingPlan>)
    ensures profile.None? || profile.value.id == "" ==> r == []
    ensures IsSubsequence(r, plans)
    ensures profile.Some? && profile.value.id != "" ==>
      (forall k :: 0 <= k < |r| ==> r[k].coachId == profile.value.id)
      && (forall k :: 0 <= k < |plans| && plans[k].coachId == profile.value.id ==> plans[k] in r)
  {
    if profile.None? || profile.value.id == "" then []
    else
      FilterIsSubsequence(plans, TP.CoachedBy(profile.value.id));
      Filter(plans, TP.CoachedBy(profile.value.id))
  }

  /** For a coach the page's own coach filter repeats the hook's, and so
      changes nothing. */
  lemma CoachPlansOfVisible(coach: User, plans: seq<TP.TrainingPlan>)
    requires coach.role == "coach" && coach.id != ""
    ensures CoachPlans(Some(coach), PlanVisibility.VisibleTrainingPlans(Some(coach), plans))
         == PlanVisibility.VisibleTrainingPlans(Some(coach), plans)
  {
    var v := PlanVisibility.VisibleTrainingPlans(Some(coach), plans);
    FilterAll(v, TP.CoachedBy(coach.id));
  }

  /** `filteredPlans`: the coach's plans that match the search and every
      filter, in order; the header's count never exceeds the coach's. */
  function FilteredTrainingPlans(coachPlans: seq<TP.TrainingPlan>, term: string, f: PlanFilters, now: Instant)
    : (r: seq<TP.TrainingPlan>)
    ensures IsSubsequence(r, coachPlans) && |r| <= |coachPlans|
    ensures forall k :: 0 <= k < |r| ==>
      PlanMatches(r[k].name, r[k].description, r[k].weeks, r[k].startDate, r[k].athleteId, term, f, now)
    ensures forall k :: 0 <= k < |coachPlans| ==>
      var p := coachPlans[k];
      PlanMatches(p.name, p.description, p.weeks, p.startDate, p.athleteId, term, f, now) ==> p in r
  {
    FilterIsSubsequence(coachPlans, TrainingPlanMatches(term, f, now));
    Filter(coachPlans, TrainingPlanMatches(term, f, now))
  }

  /** An empty search with every filter empty keeps every plan. */
  lemma NoFiltersKeepsTrainingPlans(coachPlans: seq<TP.TrainingPlan>, now: Instant)
    ensures FilteredTrainingPlans(coachPlans, "", NO_FILTERS, now) == coachPlans
  {
    forall k | 0 <= k < |coachPlans|
      ensures TrainingPlanMatches("", NO_FILTERS, now)(coachPlans[k])
    {
      IncludesEmpty(ToLower(coachPlans[k].name));
    }
    FilterAll(coachPlans, TrainingPlanMatches("", NO_FILTERS, now));
  }

  // ---------------------------------------------------------------------
  // Nutrition plans page
  // ---------------------------------------------------------------------

  /** `filteredPlans` on the hook's list; this page adds no coach filter of
      its own. */
  function FilteredNutritionPlans(plans: seq<NP.NutritionPlan>, term: string, f: PlanFilters, now: Instant)
    : (r: seq<NP.NutritionPlan>)
    ensures IsSubsequence(r, plans) && |r| <= |plans|
    ensures forall k :: 0 <= k < |r| ==>
      PlanMatches(r[k].name, r[k].description, r[k].weeks, r[k].startDate, r[k].athleteId, term, f, now)
    ensures forall k :: 0 <= k < |plans| ==>
      var p := plans[k];
      PlanMatches(p.name, p.description, p.weeks, p.startDate, p.athleteId, term, f, now) ==> p in r
  {
    FilterIsSubsequence(plans, NutritionPlanMatches(term, f, now));
    Filter(plans, NutritionPlanMatches(term, f, now))
  }

  lemma NoFiltersKeepsNutritionPlans(plans: seq<NP.NutritionPlan>, now: Instant)
    ensures FilteredNutritionPlans(plans, "", NO_FILTERS, now) == plans
  {
    forall k | 0 <= k < |plans|
      ensures NutritionPlanMatches("", NO_FILTERS, now)(plans[k])
    {
      IncludesEmpty(ToLower(plans[k].name));
    }
    FilterAll(plans, NutritionPlanMatches("", NO_FILTERS, now));
  }

  // ---------------------------------------------------------------------
  // What the individual filters select
  // ---------------------------------------------------------------------

  /** A plan without a description can match the search only by its name. */
  lemma SearchWithoutDescription(name: string, term: string)
    ensures MatchesSearch(name, None, term) <==> Includes(ToLower(name), ToLower(term))
  {
  }

  lemma DecimalStringInjective(a: int, b: int)
    requires DecimalString(a) == DecimalString(b)
    ensures a == b
  {
    NumberValueOfDecimalString(a);
    NumberValueOfDecimalString(b);
  }

  /** The weeks dropdown's value `n.toString()` keeps exactly the plans of
      `n` weeks. */
  lemma WeeksFilterSelects(n: int, weeks: int, status: Status, athleteId: Option<string>)
    ensures MatchesFilters(weeks, status, athleteId, PlanFilters(DecimalString(n), "", "")) <==> weeks == n
  {
    if DecimalString(weeks) == DecimalString(n) {
      DecimalStringInjective(weeks, n);
    }
  }

  /** The status dropdown keeps exactly the plans in that status, and a
      value naming no status keeps nothing. */
  lemma StatusFilterSelects(s: Status, weeks: int, status: Status, athleteId: Option<string>, other: string)
    requires other != "" && other !in {"upcoming", "active", "completed"}
    ensures MatchesFilters(weeks, status, athleteId, PlanFilters("", StatusName(s), "")) <==> status == s
    ensures !MatchesFilters(weeks, status, athleteId, PlanFilters("", other, ""))
  {
  }

  /** 'assigned' keeps the plans with an athlete; every other non-empty
      value, 'unassigned' included, keeps those whose athlete id is null or
      ''. */
  lemma AssignmentFilterSelects(a: string, weeks: int, status: Status, athleteId: Option<string>)
    requires a != ""
    ensures MatchesFilters(weeks, status, athleteId, PlanFilters("", "", a))
        <==> (if a == "assigned" then athleteId.Some? && athleteId.value != ""
              else athleteId.None? || athleteId.value == "")
  {
  }
}
