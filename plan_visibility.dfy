/** Which plans a signed-in user sees (hooks/useTrainingPlans.ts,
    hooks/useNutritionPlans.ts) and the athlete pages built on them
    (pages/AthleteTrainingPlan.tsx, pages/MyNutritionPlan.tsx). The signed-in
    profile is `None` before sign-in. Loading spinners are not modelled. */
module PlanVisibility {
  import opened Wrappers
  import opened Seqs
  import opened Time
  import opened Catalog
  import TP = TrainingPlans
  import NP = NutritionPlans

  // ---------------------------------------------------------------------
  // The role filters of the two hooks
  // ---------------------------------------------------------------------

  /** `useTrainingPlans`: nothing without a profile; a coach sees the plans
      they coach, any other role the plans assigned to them. */
  function VisibleTrainingPlans(profile: Option<User>, plans: seq<TP.TrainingPlan>): (r: seq<TP.TrainingPlan>)
    ensures profile.None? ==> r == []
    ensures IsSubsequence(r, plans)
    ensures profile.Some? && profile.value.role == "coach" ==>
      (forall k :: 0 <= k < |r| ==> r[k].coachId == profile.value.id)
      && (forall k :: 0 <= k < |plans| && plans[k].coachId == profile.value.id ==> plans[k] in r)
    ensures profile.Some? && profile.value.role != "coach" ==>
      (forall k :: 0 <= k < |r| ==> r[k].athleteId == Some(profile.value.id))
      && (forall k :: 0 <= k < |plans| && plans[k].athleteId == Some(profile.value.id) ==> plans[k] in r)
  {
    if profile.None? then []
    else
      var keep := if profile.value.role == "coach" then TP.CoachedBy(profile.value.id) else TP.AssignedTo(profile.value.id);
      FilterIsSubsequence(plans, keep);
      Filter(plans, keep)
  }

  /** `useNutritionPlans`: the same rule for nutrition plans. */
  function VisibleNutritionPlans(profile: Option<User>, plans: seq<NP.NutritionPlan>): (r: seq<NP.NutritionPlan>)
    ensures profile.None? ==> r == []
    ensures IsSubsequence(r, plans)
    ensures profile.Some? && profile.value.role == "coach" ==>
      (forall k :: 0 <= k < |r| ==> r[k].coachId == profile.value.id)
      && (forall k :: 0 <= k < |plans| && plans[k].coachId == profile.value.id ==> plans[k] in r)
    ensures profile.Some? && profile.value.role != "coach" ==>
      (forall k :: 0 <= k < |r| ==> r[k].athleteId == Some(profile.value.id))
      && (forall k :: 0 <= k < |plans| && plans[k].athleteId == Some(profile.value.id) ==> plans[k] in r)
  {
    if profile.None? then []
    else
      var keep := if profile.value.role == "coach" then NP.CoachedBy(profile.value.id) else NP.AssignedTo(profile.value.id);
      FilterIsSubsequence(plans, keep);
      Filter(plans, keep)
  }

  // ---------------------------------------------------------------------
  // The athlete's training page (pages/AthleteTrainingPlan.tsx)
  // ---------------------------------------------------------------------

  /** What the page renders: the 'No Active Training Plan' message, or the
      plan with the four props of its status panel. */
  datatype TrainingPage =
    | NoActiveTrainingPlan
    | TrainingPlanPage(plan: TP.TrainingPlan, startDate: Instant, weeks: int, completedWorkouts: nat, totalWorkouts: nat)

  /** `plans[0]` of the hook's list, and the two `reduce` counts. */
  function AthleteTrainingPage(profile: Option<User>, plans: seq<TP.TrainingPlan>): (page: TrainingPage)
    ensures var visible := VisibleTrainingPlans(profile, plans);
      (page.NoActiveTrainingPlan? <==> |visible| == 0)
      && (page.TrainingPlanPage? ==>
           page.plan == visible[0] && page.startDate == page.plan.startDate && page.weeks == page.plan.weeks
           && page.totalWorkouts == TP.TotalWorkouts(page.plan.workoutSchedule)
           && page.completedWorkouts == TP.CompletedWorkouts(page.plan.workoutSchedule)
           && page.completedWorkouts <= page.totalWorkouts)
  {
    var visible := VisibleTrainingPlans(profile, plans);
    if |visible| == 0 then NoActiveTrainingPlan
    else
      var p := visible[0];
      TP.CompletedAtMostTotal(p.workoutSchedule);
      TrainingPlanPage(p, p.startDate, p.weeks, TP.CompletedWorkouts(p.workoutSchedule), TP.TotalWorkouts(p.workoutSchedule))
  }

  /** For an athlete, the page shows the plan the store's
      `getAthleteActivePlan` picks, and the message exactly when there is none. */
  lemma AthletePageShowsActivePlan(store: TP.TrainingPlanStore, profile: User)
    requires profile.role != "coach"
    ensures var page := AthleteTrainingPage(Some(profile), store.plans);
      var active := store.GetAthleteActivePlan(profile.id);
      (page.NoActiveTrainingPlan? <==> active.None?)
      && (page.TrainingPlanPage? ==> page.plan == active.value)
  {
    FilterHeadIsFind(store.plans, TP.AssignedTo(profile.id));
  }

  // ---------------------------------------------------------------------
  // The athlete's nutrition page (pages/MyNutritionPlan.tsx)
  // ---------------------------------------------------------------------

  datatype NutritionPage =
    | NoActiveNutritionPlan
    | NutritionPlanPage(plan: NP.NutritionPlan, startDate: Instant, weeks: int, completedMeals: nat, totalMeals: nat)

  /** `profile ? plans.find(p => p.athleteId === profile.id) : undefined` on
      the hook's list, and the two `reduce` counts. */
  function MyNutritionPage(profile: Option<User>, plans: seq<NP.NutritionPlan>): (page: NutritionPage)
    ensures profile.None? ==> page.NoActiveNutritionPlan?
    ensures page.NutritionPlanPage? ==>
      profile.Some? && page.plan in plans && page.plan.athleteId == Some(profile.value.id)
      && page.startDate == page.plan.startDate && page.weeks == page.plan.weeks
      && page.totalMeals == NP.TotalMeals(page.plan.mealSchedule)
      && page.completedMeals == NP.CompletedMeals(page.plan.mealSchedule)
      && page.completedMeals <= page.totalMeals
  {
    if profile.None? then NoActiveNutritionPlan
    else
      var visible := VisibleNutritionPlans(profile, plans);
      match Find(visible, NP.AssignedTo(profile.value.id))
      case None => NoActiveNutritionPlan
      case Some(p) =>
        assert p in visible;
        NP.CompletedMealsAtMostTotal(p.mealSchedule);
        NutritionPlanPage(p, p.startDate, p.weeks, NP.CompletedMeals(p.mealSchedule), NP.TotalMeals(p.mealSchedule))
  }

  /** For an athlete the page shows the plan the store's
      `getAthleteActivePlan` picks; a coach only ever sees a plan they both
      coach and are assigned to. */
  lemma MyNutritionPageShowsActivePlan(store: NP.NutritionPlanStore, profile: User)
    ensures var page := MyNutritionPage(Some(profile), store.plans);
      var active := store.GetAthleteActivePlan(profile.id);
      profile.role != "coach" ==>
        (page.NoActiveNutritionPlan? <==> active.None?) && (page.NutritionPlanPage? ==> page.plan == active.value)
    ensures var page := MyNutritionPage(Some(profile), store.plans);
      profile.role == "coach" && page.NutritionPlanPage? ==> page.plan.coachId == profile.id
  {
    var visible := VisibleNutritionPlans(Some(profile), store.plans);
    if profile.role != "coach" {
      FindAfterFilter(store.plans, NP.AssignedTo(profile.id), NP.AssignedTo(profile.id));
    } else {
      var f := Find(visible, NP.AssignedTo(profile.id));
      if f.Some? {
        assert f.value in visible;
      }
    }
  }
}
