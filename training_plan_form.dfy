/** The training-plan form (components/training/TrainingPlanForm.tsx): its
    initial state, the schedule padding of `handleSubmit` (`fullSchedule`)
    and the plan it submits. Its initial state is written as in the nutrition
    form, so `InitialWeeks` and `InitialAthlete` have the same shape as
    their NutritionPlanForm counterparts. */
module TrainingPlanForm {
  import opened Wrappers
  import opened Seqs
  import opened Time
  import opened TrainingPlans

  /** The text fields read through `FormData`; the start date is already an
      instant here. */
  datatype PlanFields = PlanFields(name: string, description: string, startDate: Instant)

  /** `plan?.weeks || 4`: a missing plan, or one with 0 weeks, starts at 4. */
  function InitialWeeks(plan: Option<TrainingPlan>): (w: int)
    ensures plan.Some? && plan.value.weeks != 0 ==> w == plan.value.weeks
    ensures plan.None? || plan.value.weeks == 0 ==> w == 4
  {
    if plan.Some? && plan.value.weeks != 0 then plan.value.weeks else 4
  }

  /** `plan?.athleteId || ''`. */
  function InitialAthlete(plan: Option<TrainingPlan>): (a: string)
    ensures plan.Some? && Truthy(plan.value.athleteId) ==> a == plan.value.athleteId.value
    ensures !(plan.Some? && Truthy(plan.value.athleteId)) ==> a == ""
  {
    if plan.Some? && Truthy(plan.value.athleteId) then plan.value.athleteId.value else ""
  }

  /** The schedule state once the effect has run: a new plan with a signed-in
      user is seeded with the default schedule, an existing plan keeps its
      own, and otherwise it is empty. */
  function InitialSchedule(plan: Option<TrainingPlan>, signedIn: bool, defaultSchedule: seq<WeekSchedule>): (s: seq<WeekSchedule>)
    ensures plan.Some? ==> s == plan.value.workoutSchedule
    ensures plan.None? ==> s == (if signedIn then defaultSchedule else [])
  {
    if plan.None? && signedIn then defaultSchedule
    else if plan.Some? then plan.value.workoutSchedule
    else []
  }

  /** `Array.from({ length: weeks }, ...)` takes a negative length as 0. */
  function Length(weeks: int): nat
  {
    if weeks < 0 then 0 else weeks
  }

  /** Week `n` of the submission: the first existing entry with that number,
      or an empty week. */
  function WeekOrEmpty(schedule: seq<WeekSchedule>, n: int): (w: WeekSchedule)
    ensures w.weekNumber == n
    ensures n in WeekNumbers(schedule) ==> w == schedule[WeekIndex(schedule, n)]
    ensures n !in WeekNumbers(schedule) ==> w.workouts == []
  {
    var i := WeekIndex(schedule, n);
    if i == -1 then WeekSchedule(n, []) else schedule[i]
  }

  /** `fullSchedule`: exactly weeks 1..weeks in order, each the first
      existing entry with that number or an empty week; entries numbered
      outside 1..weeks are dropped. */
  function FullSchedule(weeks: int, schedule: seq<WeekSchedule>): (r: seq<WeekSchedule>)
    ensures |r| == Length(weeks)
    ensures forall i :: 0 <= i < |r| ==> r[i].weekNumber == i + 1
    ensures forall i :: 0 <= i < |r| ==> r[i] == WeekOrEmpty(schedule, i + 1)
    ensures WeekNumbers(r) == seq(Length(weeks), i => i + 1)
  {
    var r := seq(Length(weeks), i requires 0 <= i < Length(weeks) => WeekOrEmpty(schedule, i + 1));
    assert forall i :: 0 <= i < |r| ==> WeekNumbers(r)[i] == i + 1;
    r
  }

  /** A schedule that is already weeks 1..weeks in order is submitted as it is. */
  lemma FullScheduleOfComplete(weeks: int, schedule: seq<WeekSchedule>)
    requires |schedule| == Length(weeks)
    requires forall i :: 0 <= i < |schedule| ==> schedule[i].weekNumber == i + 1
    ensures FullSchedule(weeks, schedule) == schedule
  {
    forall i | 0 <= i < |schedule|
      ensures WeekOrEmpty(schedule, i + 1) == schedule[i]
    {
      assert WeekNumbers(schedule)[i] == i + 1;
      var j := WeekIndex(schedule, i + 1);
      assert schedule[j].weekNumber == j + 1;
    }
  }

  /** Padding twice is padding once. */
  lemma FullScheduleIdempotent(weeks: int, schedule: seq<WeekSchedule>)
    ensures FullSchedule(weeks, FullSchedule(weeks, schedule)) == FullSchedule(weeks, schedule)
  {
    FullScheduleOfComplete(weeks, FullSchedule(weeks, schedule));
  }

  /** Padding adds no workout: every submitted workout is one of the edited
      schedule's, in a week with the same number. */
  lemma FullScheduleAddsNoWorkout(weeks: int, schedule: seq<WeekSchedule>)
    ensures forall i :: 0 <= i < Length(weeks) ==>
      FullSchedule(weeks, schedule)[i].workouts == [] || FullSchedule(weeks, schedule)[i] in schedule
  {
  }

  /** Saving the padded schedule and fetching it back: the padding's empty
      weeks insert no rows, so only the weeks holding a workout come back,
      in order and with every completion reset. */
  lemma FullScheduleRefetch(planId: string, weeks: int, schedule: seq<WeekSchedule>)
    ensures var r := FullSchedule(weeks, schedule);
      Grouped(ScheduleRows(planId, r)) == ResetSchedule(NonEmptyWeeks(r))
  {
    var r := FullSchedule(weeks, schedule);
    assert forall i :: 0 <= i < |r| ==> WeekNumbers(r)[i] == i + 1;
    GroupedScheduleRowsDropsEmpty(planId, r);
  }

  /** The plan `handleSubmit` hands to `onSubmit`; it has no id yet (`""`
      here, never read by `addPlan`). */
  function BuildPlan(fields: PlanFields, weeks: int, selectedAthlete: string, profileId: string,
                     schedule: seq<WeekSchedule>): (p: TrainingPlan)
    ensures p.coachId == profileId && p.weeks == weeks
    ensures p.athleteId.None? <==> selectedAthlete == ""
    ensures p.athleteId.Some? ==> p.athleteId.value == selectedAthlete
    ensures p.name == fields.name && p.description == Some(fields.description) && p.startDate == fields.startDate
    ensures |p.workoutSchedule| == Length(weeks)
    ensures forall i :: 0 <= i < |p.workoutSchedule| ==> p.workoutSchedule[i] == WeekOrEmpty(schedule, i + 1)
  {
    TrainingPlan("", fields.name, Some(fields.description), weeks, fields.startDate, profileId,
      if selectedAthlete != "" then Some(selectedAthlete) else None, FullSchedule(weeks, schedule))
  }

  /** The submitted plan is inserted with a null athlete exactly when none is
      selected, and, being padded to `weeks` entries, it makes a schedule
      insert exactly when `weeks` is positive, even if every week is empty. */
  lemma SubmittedPlanInsert(fields: PlanFields, weeks: int, selectedAthlete: string, profileId: string,
                            schedule: seq<WeekSchedule>, newPlanId: string)
    ensures (AddPlanRequest(BuildPlan(fields, weeks, selectedAthlete, profileId, schedule), newPlanId)
      .header.athleteId.None?) <==> selectedAthlete == ""
    ensures (AddPlanRequest(BuildPlan(fields, weeks, selectedAthlete, profileId, schedule), newPlanId)
      .scheduleRows.None?) <==> weeks <= 0
  {
  }

  /** `workoutSchedule.some(w => w.workouts.length > 0)`. */
  predicate HasWorkouts(schedule: seq<WeekSchedule>)
  {
    exists k :: 0 <= k < |schedule| && |schedule[k].workouts| > 0
  }

  function ScheduleButtonLabel(schedule: seq<WeekSchedule>): string
  {
    if HasWorkouts(schedule) then "Edit Schedule" else "Add Workouts"
  }

  /** The button reads 'Edit Schedule' exactly when the schedule holds at
      least one workout. */
  lemma {:induction false} LabelIffWorkouts(schedule: seq<WeekSchedule>)
    ensures ScheduleButtonLabel(schedule) == "Edit Schedule" <==> TotalWorkouts(schedule) > 0
    decreases |schedule|
  {
    if |schedule| > 0 {
      var pre := schedule[..|schedule| - 1];
      LabelIffWorkouts(pre);
      assert forall k :: 0 <= k < |pre| ==> pre[k] == schedule[k];
      if HasWorkouts(pre) {
        var k :| 0 <= k < |pre| && |pre[k].workouts| > 0;
        assert schedule[k] == pre[k];
      }
    }
  }
}
