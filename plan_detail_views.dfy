/** The filtered week views of a plan: the athlete's detailed training plan
    (components/training/DetailedTrainingPlan.tsx), the detailed nutrition
    plan (components/nutrition/DetailedNutritionPlan.tsx) and the coach's
    workout status manager (components/training/WorkoutStatusManager.tsx),
    with the status-change requests they make. */
module PlanDetailViews {
  import opened Wrappers
  import opened Seqs
  import opened Text
  import opened Time
  import opened Catalog
  import TP = TrainingPlans
  import NP = NutritionPlans
  import WorkoutStore

  /** The week selector: no selection, or the JavaScript-falsy week 0, shows
      every week; otherwise only the weeks with that number. */
  predicate WeekSelected(selected: Option<int>, n: int)
  {
    selected.None? || selected.value == 0 || n == selected.value
  }

  /** The status dropdown: '' keeps everything, 'completed' the completed
      entries and any other value the pending ones. */
  predicate StatusMatches(status: string, completed: bool)
  {
    status == "" || (if status == "completed" then completed else !completed)
  }

  /** The status and type dropdowns of the athlete pages. */
  datatype DetailFilters = DetailFilters(status: string, itemType: string)

  /** The change a status toggle asks the store to make. */
  datatype StatusRequest = StatusRequest(planId: string, weekNumber: int, itemId: string, completed: bool)

  // ---------------------------------------------------------------------
  // Selecting weeks (shared by the three views)
  // ---------------------------------------------------------------------

  function TrainingWeekSelected(selected: Option<int>): TP.WeekSchedule -> bool
  {
    (w: TP.WeekSchedule) => WeekSelected(selected, w.weekNumber)
  }

  function SelectTrainingWeeks(s: seq<TP.WeekSchedule>, selected: Option<int>): (r: seq<TP.WeekSchedule>)
    ensures IsSubsequence(r, s)
    ensures selected.None? || selected.value == 0 ==> r == s
    ensures forall k :: 0 <= k < |r| ==> WeekSelected(selected, r[k].weekNumber)
    ensures forall k :: 0 <= k < |s| && WeekSelected(selected, s[k].weekNumber) ==> s[k] in r
  {
    FilterIsSubsequence(s, TrainingWeekSelected(selected));
    if selected.None? || selected.value == 0 then FilterAll(s, TrainingWeekSelected(selected)); s
    else Filter(s, TrainingWeekSelected(selected))
  }

  /** `weeks.map(week => ({...week, workouts: week.workouts.filter(keep)}))`. */
  function FilterWorkoutsIn(weeks: seq<TP.WeekSchedule>, keep: TP.ScheduledWorkout -> bool)
    : (r: seq<TP.WeekSchedule>)
    ensures |r| == |weeks|
    ensures forall k :: 0 <= k < |r| ==> r[k].weekNumber == weeks[k].weekNumber
    ensures forall k :: 0 <= k < |r| ==> IsSubsequence(r[k].workouts, weeks[k].workouts)
    ensures forall k, j :: 0 <= k < |r| && 0 <= j < |r[k].workouts| ==> keep(r[k].workouts[j])
    ensures forall k, j :: 0 <= k < |r| && 0 <= j < |weeks[k].workouts| && keep(weeks[k].workouts[j]) ==>
      weeks[k].workouts[j] in r[k].workouts
  {
    var r := seq(|weeks|, k requires 0 <= k < |weeks| => weeks[k].(workouts := Filter(weeks[k].workouts, keep)));
    assert forall k :: 0 <= k < |r| ==> r[k].workouts == Filter(weeks[k].workouts, keep);
    forall k | 0 <= k < |r|
      ensures IsSubsequence(r[k].workouts, weeks[k].workouts)
    {
      FilterIsSubsequence(weeks[k].workouts, keep);
    }
    r
  }

  // ---------------------------------------------------------------------
  // The detailed training plan
  // ---------------------------------------------------------------------

  /** A scheduled workout is shown when its workout is in the catalog, its
      name contains the search term (case-insensitively), its type fits the
      type filter and its completion fits the status filter. */
  predicate WorkoutShown(catalog: seq<Workout>, term: string, f: DetailFilters, w: TP.ScheduledWorkout)
  {
    match WorkoutStore.FirstWithId(catalog, w.workoutId)
    case None => false
    case Some(d) =>
      Includes(ToLower(d.name), ToLower(term))
      && (f.itemType == "" || d.workoutType == f.itemType)
      && StatusMatches(f.status, w.completed)
  }

  function ShowWorkout(catalog: seq<Workout>, term: string, f: DetailFilters): TP.ScheduledWorkout -> bool
  {
    (w: TP.ScheduledWorkout) => WorkoutShown(catalog, term, f, w)
  }

  /** `filteredSchedule`: the selected weeks, all of them kept, each holding
      the workouts shown, in order; a workout missing from the catalog is
      never shown. */
  function DetailedTrainingSchedule(s: seq<TP.WeekSchedule>, selected: Option<int>, term: string,
                                    f: DetailFilters, catalog: seq<Workout>): (r: seq<TP.WeekSchedule>)
    ensures var weeks := SelectTrainingWeeks(s, selected);
      |r| == |weeks|
      && (forall k :: 0 <= k < |r| ==> r[k].weekNumber == weeks[k].weekNumber)
      && (forall k :: 0 <= k < |r| ==> IsSubsequence(r[k].workouts, weeks[k].workouts))
      && (forall k, j :: 0 <= k < |r| && 0 <= j < |weeks[k].workouts| ==>
            (weeks[k].workouts[j] in r[k].workouts <==> WorkoutShown(catalog, term, f, weeks[k].workouts[j])))
    ensures forall k, j :: 0 <= k < |r| && 0 <= j < |r[k].workouts| ==>
      WorkoutStore.FirstWithId(catalog, r[k].workouts[j].workoutId).Some?
  {
    var weeks := SelectTrainingWeeks(s, selected);
    var r := FilterWorkoutsIn(weeks, ShowWorkout(catalog, term, f));
    forall k, j | 0 <= k < |r| && 0 <= j < |weeks[k].workouts| && weeks[k].workouts[j] in r[k].workouts
      ensures WorkoutShown(catalog, term, f, weeks[k].workouts[j])
    {
      var i :| 0 <= i < |r[k].workouts| && r[k].workouts[i] == weeks[k].workouts[j];
      assert ShowWorkout(catalog, term, f)(r[k].workouts[i]);
    }
    r
  }

  /** With no selection, an empty search and no filters, a week shows exactly
      its workouts that exist in the catalog: dangling references are
      dropped, nothing else is. */
  lemma DanglingWorkoutsDropped(s: seq<TP.WeekSchedule>, catalog: seq<Workout>, k: nat, j: nat)
    requires k < |s| && j < |s[k].workouts|
    ensures (s[k].workouts[j] in DetailedTrainingSchedule(s, None, "", DetailFilters("", ""), catalog)[k].workouts)
        <==> WorkoutStore.FirstWithId(catalog, s[k].workouts[j].workoutId).Some?
  {
    var d := WorkoutStore.FirstWithId(catalog, s[k].workouts[j].workoutId);
    if d.Some? {
      IncludesEmpty(ToLower(d.value.name));
    }
  }

  /** The toggle asks for the opposite of the workout's current flag, under
      the plan, its week and its workout id. */
  function ToggleWorkoutRequest(planId: string, weekNumber: int, w: TP.ScheduledWorkout): (q: StatusRequest)
    ensures q.completed == !w.completed
    ensures q.planId == planId && q.weekNumber == weekNumber && q.itemId == w.workoutId
  {
    StatusRequest(planId, weekNumber, w.workoutId, !w.completed)
  }

  /** Carrying out the toggle's request and refetching keeps the plan's weeks
      and shows the flipped flag on that workout in that week. */
  lemma ToggleWorkoutSeenAfterRefetch(rows: seq<TP.WorkoutRow>, planId: string, weekNumber: int,
                                      w: TP.ScheduledWorkout, now: Instant)
    requires forall i :: 0 <= i < |rows| ==> rows[i].trainingPlanId == planId
    ensures var q := ToggleWorkoutRequest(planId, weekNumber, w);
      var g := TP.Grouped(TP.UpdateWorkoutStatus(rows, q.planId, q.weekNumber, q.itemId, q.completed, now));
      TP.WeekNumbers(g) == TP.WeekNumbers(TP.Grouped(rows))
      && forall k, j ::
           (0 <= k < |g| && g[k].weekNumber == weekNumber && 0 <= j < |g[k].workouts|
            && g[k].workouts[j].workoutId == w.workoutId) ==> g[k].workouts[j].completed == !w.completed
  {
    TP.StatusUpdateSeenAfterRefetch(rows, planId, weekNumber, w.workoutId, !w.completed, now);
  }

  // ---------------------------------------------------------------------
  // The workout status manager
  // ---------------------------------------------------------------------

  /** An empty search keeps every workout; otherwise the workout id must
      contain the search term, case-insensitively. */
  function IdMatches(term: string): TP.ScheduledWorkout -> bool
  {
    (w: TP.ScheduledWorkout) => term == "" || Includes(ToLower(w.workoutId), ToLower(term))
  }

  /** The manager's `filteredSchedule`. */
  function StatusManagerSchedule(s: seq<TP.WeekSchedule>, selected: Option<int>, term: string)
    : (r: seq<TP.WeekSchedule>)
    ensures var weeks := SelectTrainingWeeks(s, selected);
      |r| == |weeks|
      && (forall k :: 0 <= k < |r| ==> r[k].weekNumber == weeks[k].weekNumber)
      && (forall k :: 0 <= k < |r| ==> IsSubsequence(r[k].workouts, weeks[k].workouts))
      && (forall k, j :: 0 <= k < |r| && 0 <= j < |r[k].workouts| ==>
            term == "" || Includes(ToLower(r[k].workouts[j].workoutId), ToLower(term)))
      && (forall k, j :: 0 <= k < |r| && 0 <= j < |weeks[k].workouts|
            && (term == "" || Includes(ToLower(weeks[k].workouts[j].workoutId), ToLower(term)))
            ==> weeks[k].workouts[j] in r[k].workouts)
  {
    FilterWorkoutsIn(SelectTrainingWeeks(s, selected), IdMatches(term))
  }

  /** With an empty search the manager shows the selected weeks whole. */
  lemma StatusManagerEmptySearch(s: seq<TP.WeekSchedule>, selected: Option<int>)
    ensures StatusManagerSchedule(s, selected, "") == SelectTrainingWeeks(s, selected)
  {
    var weeks := SelectTrainingWeeks(s, selected);
    var r := StatusManagerSchedule(s, selected, "");
    forall k | 0 <= k < |r|
      ensures r[k] == weeks[k]
    {
      FilterAll(weeks[k].workouts, IdMatches(""));
    }
  }

  /** "Completed on ..." is shown only for a completed workout with a
      completion time. */
  predicate ShowsCompletionDate(w: TP.ScheduledWorkout)
  {
    w.completed && w.completedAt.Some?
  }

  /** After `updateWorkoutStatus` and a refetch, a workout shows its completion
      date exactly when it is completed: the store sets the time with the
      flag and clears it without. */
  lemma CompletionDateAfterUpdate(row: TP.WorkoutRow, completed: bool, now: Instant)
    ensures ShowsCompletionDate(TP.ToScheduled(TP.SetStatus(row, completed, now))) <==> completed
  {
  }

  // ---------------------------------------------------------------------
  // The detailed nutrition plan
  // ---------------------------------------------------------------------

  function NutritionWeekSelected(selected: Option<int>): NP.MealWeek -> bool
  {
    (w: NP.MealWeek) => WeekSelected(selected, w.weekNumber)
  }

  function SelectMealWeeks(s: seq<NP.MealWeek>, selected: Option<int>): (r: seq<NP.MealWeek>)
    ensures IsSubsequence(r, s)
    ensures selected.None? || selected.value == 0 ==> r == s
    ensures forall k :: 0 <= k < |r| ==> WeekSelected(selected, r[k].weekNumber)
    ensures forall k :: 0 <= k < |s| && WeekSelected(selected, s[k].weekNumber) ==> s[k] in r
  {
    FilterIsSubsequence(s, NutritionWeekSelected(selected));
    if selected.None? || selected.value == 0 then FilterAll(s, NutritionWeekSelected(selected)); s
    else Filter(s, NutritionWeekSelected(selected))
  }

  /** A meal is shown when its name contains the search term, its type fits
      the type filter and its completion fits the status filter. */
  predicate MealShown(term: string, f: DetailFilters, m: NP.Meal)
  {
    Includes(ToLower(m.name), ToLower(term))
    && (f.itemType == "" || m.mealType == f.itemType)
    && StatusMatches(f.status, m.completed)
  }

  function ShowMeal(term: string, f: DetailFilters): NP.Meal -> bool
  {
    (m: NP.Meal) => MealShown(term, f, m)
  }

  /** `filteredSchedule` of the nutrition view: the selected weeks, all kept,
      each with the meals shown, in order. */
  function DetailedMealSchedule(s: seq<NP.MealWeek>, selected: Option<int>, term: string, f: DetailFilters)
    : (r: seq<NP.MealWeek>)
    ensures var weeks := SelectMealWeeks(s, selected);
      |r| == |weeks|
      && (forall k :: 0 <= k < |r| ==> r[k].weekNumber == weeks[k].weekNumber)
      && (forall k :: 0 <= k < |r| ==> IsSubsequence(r[k].meals, weeks[k].meals))
      && (forall k, j :: 0 <= k < |r| && 0 <= j < |r[k].meals| ==> MealShown(term, f, r[k].meals[j]))
      && (forall k, j :: 0 <= k < |r| && 0 <= j < |weeks[k].meals| && MealShown(term, f, weeks[k].meals[j]) ==>
            weeks[k].meals[j] in r[k].meals)
  {
    var weeks := SelectMealWeeks(s, selected);
    var r := seq(|weeks|, k requires 0 <= k < |weeks| => weeks[k].(meals := Filter(weeks[k].meals, ShowMeal(term, f))));
    assert forall k :: 0 <= k < |r| ==> r[k].meals == Filter(weeks[k].meals, ShowMeal(term, f));
    forall k | 0 <= k < |r|
      ensures IsSubsequence(r[k].meals, weeks[k].meals)
    {
      FilterIsSubsequence(weeks[k].meals, ShowMeal(term, f));
    }
    r
  }

  /** With an empty search and no filters every meal of the selected weeks
      is shown. */
  lemma NoMealFiltersShowsAll(s: seq<NP.MealWeek>, selected: Option<int>)
    ensures DetailedMealSchedule(s, selected, "", DetailFilters("", "")) == SelectMealWeeks(s, selected)
  {
    var weeks := SelectMealWeeks(s, selected);
    var r := DetailedMealSchedule(s, selected, "", DetailFilters("", ""));
    forall k | 0 <= k < |r|
      ensures r[k] == weeks[k]
    {
      forall j | 0 <= j < |weeks[k].meals|
        ensures ShowMeal("", DetailFilters("", ""))(weeks[k].meals[j])
      {
        IncludesEmpty(ToLower(weeks[k].meals[j].name));
      }
      FilterAll(weeks[k].meals, ShowMeal("", DetailFilters("", "")));
    }
  }

  /** The meal toggle asks `updateMealStatus(plan.id, week, meal.id,
      !meal.completed)`. */
  function ToggleMealRequest(planId: string, weekNumber: int, m: NP.Meal): (q: StatusRequest)
    ensures q.completed == !m.completed
    ensures q.planId == planId && q.weekNumber == weekNumber && q.itemId == m.id
  {
    StatusRequest(planId, weekNumber, m.id, !m.completed)
  }

  /** Carrying out the meal toggle's request and refetching keeps the plan's
      weeks and shows the flipped flag on that meal in that week. */
  lemma ToggleMealSeenAfterRefetch(rows: seq<NP.MealRow>, planId: string, weekNumber: int,
                                   m: NP.Meal, now: Instant)
    requires forall i :: 0 <= i < |rows| ==> rows[i].nutritionPlanId == planId
    ensures var q := ToggleMealRequest(planId, weekNumber, m);
      var g := NP.Grouped(NP.UpdateMealStatus(rows, q.planId, q.weekNumber, q.itemId, q.completed, now));
      NP.WeekNumbers(g) == NP.WeekNumbers(NP.Grouped(rows))
      && forall k, j ::
           (0 <= k < |g| && g[k].weekNumber == weekNumber && 0 <= j < |g[k].meals|
            && g[k].meals[j].id == m.id) ==> g[k].meals[j].completed == !m.completed
  {
    NP.MealStatusSeenAfterRefetch(rows, planId, weekNumber, m.id, !m.completed, now);
  }
}
