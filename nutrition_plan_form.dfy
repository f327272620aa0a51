/** The nutrition-plan form (components/nutrition/NutritionPlanForm.tsx): its
    initial state and the plan `handleSubmit` builds. Unlike the training
    form it does not pad the schedule to `weeks` entries. */
module NutritionPlanForm {
  import opened Wrappers
  import opened Seqs
  import opened Time
  import opened NutritionPlans

  /** The text fields read through `FormData`. The number of weeks is not
      among them: it comes from the form's numeric state. */
  datatype PlanFields = PlanFields(name: string, description: string, startDate: Instant)

  /** `plan?.weeks || 4`. */
  function InitialWeeks(plan: Option<NutritionPlan>): (w: int)
    ensures plan.Some? && plan.value.weeks != 0 ==> w == plan.value.weeks
    ensures plan.None? || plan.value.weeks == 0 ==> w == 4
  {
    if plan.Some? && plan.value.weeks != 0 then plan.value.weeks else 4
  }

  /** `plan?.athleteId || ''`. */
  function InitialAthlete(plan: Option<NutritionPlan>): (a: string)
    ensures plan.Some? && Truthy(plan.value.athleteId) ==> a == plan.value.athleteId.value
    ensures !(plan.Some? && Truthy(plan.value.athleteId)) ==> a == ""
  {
    if plan.Some? && Truthy(plan.value.athleteId) then plan.value.athleteId.value else ""
  }

  /** The meal schedule state once the effect has run: only a new plan, and
      only with a signed-in user, is seeded with the default schedule. */
  function InitialSchedule(plan: Option<NutritionPlan>, signedIn: bool, defaultSchedule: seq<MealWeek>): (s: seq<MealWeek>)
    ensures s == defaultSchedule <== plan.None? && signedIn
    ensures plan.Some? ==> s == plan.value.mealSchedule
    ensures plan.None? && !signedIn ==> s == []
  {
    if plan.None? && signedIn then defaultSchedule
    else if plan.Some? then plan.value.mealSchedule
    else []
  }

  /** The plan handed to `onSubmit` (no id yet: `""`, never read by
      `addPlan`): the schedule exactly as edited, the weeks from the state,
      the signed-in coach, and a null athlete when none is selected. */
  function BuildPlan(fields: PlanFields, weeks: int, selectedAthlete: string, profileId: string,
                     mealSchedule: seq<MealWeek>): (p: NutritionPlan)
    ensures p.mealSchedule == mealSchedule && p.weeks == weeks && p.coachId == profileId
    ensures p.athleteId.None? <==> selectedAthlete == ""
    ensures p.athleteId.Some? ==> p.athleteId.value == selectedAthlete
    ensures p.name == fields.name && p.description == Some(fields.description) && p.startDate == fields.startDate
  {
    NutritionPlan("", fields.name, Some(fields.description), weeks, fields.startDate, profileId,
      if selectedAthlete != "" then Some(selectedAthlete) else None, mealSchedule)
  }

  /** Because nothing is padded, the insert carries exactly the edited meals,
      and no meal insert is made for an empty schedule whatever `weeks` is. */
  lemma SubmittedPlanInsert(fields: PlanFields, weeks: int, selectedAthlete: string, profileId: string,
                            mealSchedule: seq<MealWeek>, newPlanId: string)
    ensures (AddPlanRequest(BuildPlan(fields, weeks, selectedAthlete, profileId, mealSchedule), newPlanId)
      .mealRows.None?) <==> |mealSchedule| == 0
    ensures (AddPlanRequest(BuildPlan(fields, weeks, selectedAthlete, profileId, mealSchedule), newPlanId)
      .header.athleteId.None?) <==> selectedAthlete == ""
  {
  }

  /** `mealSchedule.some(w => w.meals.length > 0)`. */
  predicate HasMeals(schedule: seq<MealWeek>)
  {
    exists k :: 0 <= k < |schedule| && |schedule[k].meals| > 0
  }

  function ScheduleButtonLabel(schedule: seq<MealWeek>): string
  {
    if HasMeals(schedule) then "Edit Schedule" else "Add Meals"
  }

  /** The button reads 'Edit Schedule' exactly when some week has a meal. */
  lemma {:induction false} LabelIffMeals(schedule: seq<MealWeek>)
    ensures ScheduleButtonLabel(schedule) == "Edit Schedule" <==> TotalMeals(schedule) > 0
    decreases |schedule|
  {
    if |schedule| > 0 {
      var pre := schedule[..|schedule| - 1];
      LabelIffMeals(pre);
      assert forall k :: 0 <= k < |pre| ==> pre[k] == schedule[k];
      if HasMeals(pre) {
        var k :| 0 <= k < |pre| && |pre[k].meals| > 0;
        assert schedule[k] == pre[k];
      }
    }
  }
}
