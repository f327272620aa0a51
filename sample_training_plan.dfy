/** The default training plan a new plan form starts from
    (utils/sampleTrainingPlan.ts): eight weeks, each with the first two
    catalog workouts on Monday and Wednesday. The "start tomorrow" date is
    not modelled. The `users` input is the user store's list as it stands
    when the function is called: the function reads it from a state
    snapshot taken before it awaits `fetchUsers`, and that fetch replaces
    the store's state, not the snapshot, so the fetched directory never
    reaches the default plan. The workout catalog is an input too. */
module SampleTrainingPlan {
  import opened Wrappers
  import opened Seqs
  import opened Time
  import opened Catalog
  import opened TrainingPlans
  import TrainingPlanForm
  import WorkoutScheduleEditor

  /** The object `getDefaultTrainingPlan` returns, without its start date. */
  datatype DefaultPlan = DefaultPlan(
    name: string, description: string, weeks: int, coachId: string, athleteId: string,
    workoutSchedule: seq<WeekSchedule>)

  const DEFAULT_WEEKS: int := 8
  const DEFAULT_NAME: string := "8-Week Strength Building Program"
  const DEFAULT_DESCRIPTION: string :=
    "Progressive overload program focusing on compound movements and functional strength"

  predicate IsAthlete(u: User)
  {
    u.role == "athlete"
  }

  /** `users.find(user => user.role === 'athlete')?.id || ''`, over the
      store's list at the call. */
  function DefaultAthleteId(users: seq<User>): (id: string)
    ensures (forall k :: 0 <= k < |users| ==> !IsAthlete(users[k])) ==> id == ""
    ensures forall i :: 0 <= i < |users| && IsAthlete(users[i]) && (forall k :: 0 <= k < i ==> !IsAthlete(users[k]))
                        ==> id == users[i].id
  {
    match Find(users, IsAthlete)
    case None => ""
    case Some(u) => u.id
  }

  /** `workouts[k]?.id || ''`. */
  function CatalogIdAt(catalog: seq<Workout>, k: nat): (id: string)
    ensures k < |catalog| ==> id == catalog[k].id
    ensures k >= |catalog| ==> id == ""
  {
    if k < |catalog| then catalog[k].id else ""
  }

  /** One week of the default schedule. */
  function DefaultWeek(n: int, catalog: seq<Workout>): WeekSchedule
  {
    WeekSchedule(n, [ScheduledWorkout(CatalogIdAt(catalog, 0), 1, false, None),
                     ScheduledWorkout(CatalogIdAt(catalog, 1), 3, false, None)])
  }

  function DefaultSchedule(catalog: seq<Workout>): (s: seq<WeekSchedule>)
    ensures |s| == DEFAULT_WEEKS
    ensures forall i :: 0 <= i < |s| ==> s[i] == DefaultWeek(i + 1, catalog)
  {
    seq(DEFAULT_WEEKS, i requires 0 <= i < DEFAULT_WEEKS => DefaultWeek(i + 1, catalog))
  }

  /** `getDefaultTrainingPlan(coachId)`. */
  function DefaultTrainingPlan(coachId: string, users: seq<User>, catalog: seq<Workout>): (p: DefaultPlan)
    ensures p.weeks == |p.workoutSchedule| == 8
    ensures p.coachId == coachId && p.athleteId == DefaultAthleteId(users)
    ensures forall i :: 0 <= i < |p.workoutSchedule| ==> p.workoutSchedule[i].weekNumber == i + 1
  {
    DefaultPlan(DEFAULT_NAME, DEFAULT_DESCRIPTION, DEFAULT_WEEKS, coachId, DefaultAthleteId(users), DefaultSchedule(catalog))
  }

  /** With the user store empty at the call, as on the first plan form of a
      session, the snapshot stays empty through the fetch and the default
      plan has no athlete. */
  lemma EmptyStoreGivesNoAthlete(coachId: string, catalog: seq<Workout>)
    ensures DefaultTrainingPlan(coachId, [], catalog).athleteId == ""
  {
  }

  /** Every week holds exactly two pending workouts: the first catalog
      workout on day 1, then the second on day 3, with '' for a catalog
      entry that does not exist; so all weeks are the same. */
  lemma DefaultWeeksShape(coachId: string, users: seq<User>, catalog: seq<Workout>)
    ensures var s := DefaultTrainingPlan(coachId, users, catalog).workoutSchedule;
      forall i :: 0 <= i < |s| ==>
        |s[i].workouts| == 2
        && s[i].workouts[0] == ScheduledWorkout(if |catalog| > 0 then catalog[0].id else "", 1, false, None)
        && s[i].workouts[1] == ScheduledWorkout(if |catalog| > 1 then catalog[1].id else "", 3, false, None)
    ensures var s := DefaultTrainingPlan(coachId, users, catalog).workoutSchedule;
      forall i, j :: 0 <= i < |s| && 0 <= j < |s| ==> s[i].workouts == s[j].workouts
  {
    var s := DefaultSchedule(catalog);
    assert forall i :: 0 <= i < |s| ==> s[i].workouts == DefaultWeek(1, catalog).workouts;
  }

  lemma {:induction false} TotalOfDefaultPrefix(catalog: seq<Workout>, k: nat)
    requires k <= DEFAULT_WEEKS
    ensures TotalWorkouts(DefaultSchedule(catalog)[..k]) == 2 * k
    ensures CompletedWorkouts(DefaultSchedule(catalog)[..k]) == 0
  {
    if k > 0 {
      var s := DefaultSchedule(catalog)[..k];
      assert s[..k - 1] == DefaultSchedule(catalog)[..k - 1];
      TotalOfDefaultPrefix(catalog, k - 1);
      FilterNone(s[k - 1].workouts, IsCompleted);
    }
  }

  /** The default plan has sixteen workouts, none of them completed. */
  lemma DefaultCounts(coachId: string, users: seq<User>, catalog: seq<Workout>)
    ensures var s := DefaultTrainingPlan(coachId, users, catalog).workoutSchedule;
      TotalWorkouts(s) == 16 && CompletedWorkouts(s) == 0
  {
    TotalOfDefaultPrefix(catalog, DEFAULT_WEEKS);
    assert DefaultSchedule(catalog)[..DEFAULT_WEEKS] == DefaultSchedule(catalog);
  }

  /** The form's padding to the plan's 8 weeks submits the default schedule
      unchanged. */
  lemma DefaultSurvivesPadding(coachId: string, users: seq<User>, catalog: seq<Workout>)
    ensures var p := DefaultTrainingPlan(coachId, users, catalog);
      TrainingPlanForm.FullSchedule(p.weeks, p.workoutSchedule) == p.workoutSchedule
  {
    var p := DefaultTrainingPlan(coachId, users, catalog);
    TrainingPlanForm.FullScheduleOfComplete(p.weeks, p.workoutSchedule);
  }

  /** Saving the default plan and fetching it back gives the same schedule:
      its weeks are distinct, none is empty and nothing is completed. */
  lemma DefaultRoundTrip(planId: string, catalog: seq<Workout>)
    ensures Grouped(ScheduleRows(planId, DefaultSchedule(catalog))) == DefaultSchedule(catalog)
  {
    var s := DefaultSchedule(catalog);
    assert forall i :: 0 <= i < |s| ==> WeekNumbers(s)[i] == i + 1;
    GroupedScheduleRows(planId, s);
    ResetScheduleMeaning(s);
  }

  /** The form pads the schedule to the week count in its field. Grown to
      ten weeks, the default plan is saved with ten weeks, but its weeks 9
      and 10 are empty and insert no rows, so fetching it back gives the
      eight default weeks. */
  lemma DefaultGrownToTenWeeks(planId: string, catalog: seq<Workout>)
    ensures |TrainingPlanForm.FullSchedule(10, DefaultSchedule(catalog))| == 10
    ensures Grouped(ScheduleRows(planId, TrainingPlanForm.FullSchedule(10, DefaultSchedule(catalog)))) ==
      DefaultSchedule(catalog)
  {
    var s := TrainingPlanForm.FullSchedule(10, DefaultSchedule(catalog));
    GrownDefaultKeepsOnlyDefaultWeeks(catalog);
    ScheduleRowsSkipEmpty(planId, s);
    DefaultRoundTrip(planId, catalog);
  }

  /** Of the ten padded weeks, exactly the eight default ones hold workouts. */
  lemma GrownDefaultKeepsOnlyDefaultWeeks(catalog: seq<Workout>)
    ensures NonEmptyWeeks(TrainingPlanForm.FullSchedule(10, DefaultSchedule(catalog))) == DefaultSchedule(catalog)
  {
    var d := DefaultSchedule(catalog);
    var s := TrainingPlanForm.FullSchedule(10, d);
    var front, back := s[..8], s[8..];
    GrownDefaultShape(catalog);
    assert s == front + back;
    FilterAppend(front, back, HasWorkouts);
    DefaultWeeksShape("", [], catalog);
    FilterAll(d, HasWorkouts);
    assert |back| == 2 && back[0] == s[8] && back[1] == s[9];
    FilterNone(back, HasWorkouts);
  }

  /** The padded default: the eight default weeks, then two empty ones. */
  lemma GrownDefaultShape(catalog: seq<Workout>)
    ensures var s := TrainingPlanForm.FullSchedule(10, DefaultSchedule(catalog));
      s[..8] == DefaultSchedule(catalog) && s[8].workouts == [] && s[9].workouts == []
  {
    var d := DefaultSchedule(catalog);
    var s := TrainingPlanForm.FullSchedule(10, d);
    TrainingPlanForm.FullScheduleOfComplete(DEFAULT_WEEKS, d);
    var full8 := TrainingPlanForm.FullSchedule(DEFAULT_WEEKS, d);
    forall i | 0 <= i < 8
      ensures s[i] == d[i]
    {
      assert s[i] == TrainingPlanForm.WeekOrEmpty(d, i + 1) == full8[i];
    }
    assert forall k :: 0 <= k < |d| ==> WeekNumbers(d)[k] == k + 1;
    assert 9 !in WeekNumbers(d) && 10 !in WeekNumbers(d);
  }

  /** The schedule editor's rule that a week holds a workout at most once is
      met by the default weeks exactly when the catalog has two workouts with
      different ids, or exactly one workout whose id is not ''; with an
      empty catalog both entries are ''. */
  lemma DefaultWeekDistinctIff(catalog: seq<Workout>, n: int)
    ensures WorkoutScheduleEditor.DistinctWorkouts(DefaultWeek(n, catalog).workouts)
        <==> (|catalog| >= 2 && catalog[0].id != catalog[1].id) || (|catalog| == 1 && catalog[0].id != "")
  {
    var ids := WorkoutScheduleEditor.WorkoutIds(DefaultWeek(n, catalog).workouts);
    assert ids == [CatalogIdAt(catalog, 0), CatalogIdAt(catalog, 1)];
    assert Distinct(ids) <==> ids[0] != ids[1];
  }
}
