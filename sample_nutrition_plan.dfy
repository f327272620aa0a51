/** The default nutrition plan a new plan form starts from
    (utils/sampleNutritionPlan.ts): eight weeks, each with the same breakfast
    and lunch on Monday. The "start tomorrow" date is not modelled. As for
    the training default, `users` is the user store's list as it stands at
    the call, which the awaited `fetchUsers` does not change. The sixteen
    `crypto.randomUUID()` values are passed in, in the order they are drawn. */
module SampleNutritionPlan {
  import opened Wrappers
  import opened Seqs
  import opened Catalog
  import opened NutritionPlans
  import SampleTrainingPlan
  import MealScheduleEditor

  /** The object `getDefaultNutritionPlan` returns, without its start date. */
  datatype DefaultPlan = DefaultPlan(
    name: string, description: string, weeks: int, coachId: string, athleteId: string,
    mealSchedule: seq<MealWeek>)

  const DEFAULT_WEEKS: int := 8
  /** Two meals a week, one fresh id each. */
  const ID_COUNT: int := 16
  const DEFAULT_NAME: string := "8-Week Nutrition Plan"
  const DEFAULT_DESCRIPTION: string :=
    "Balanced nutrition plan with focus on whole foods and proper macronutrient distribution"

  const BREAKFAST_NAME: string := "Protein Oatmeal"
  const BREAKFAST_DESCRIPTION: string := "Oatmeal with protein powder and fruits"
  const LUNCH_NAME: string := "Chicken Salad"
  const LUNCH_DESCRIPTION: string := "Grilled chicken breast with mixed greens"

  function Breakfast(id: string, weekNumber: int): Meal
  {
    Meal(id, "", weekNumber, 1, "breakfast", BREAKFAST_NAME, Some(BREAKFAST_DESCRIPTION),
         Some(400), Some(30), Some(50), Some(10), false, None)
  }

  function Lunch(id: string, weekNumber: int): Meal
  {
    Meal(id, "", weekNumber, 1, "lunch", LUNCH_NAME, Some(LUNCH_DESCRIPTION),
         Some(500), Some(40), Some(30), Some(20), false, None)
  }

  /** Week `i + 1`, built from the ids drawn for it. */
  function DefaultWeek(i: nat, ids: seq<string>): MealWeek
    requires 2 * i + 1 < |ids|
  {
    MealWeek(i + 1, [Breakfast(ids[2 * i], i + 1), Lunch(ids[2 * i + 1], i + 1)])
  }

  function DefaultMealSchedule(ids: seq<string>): (s: seq<MealWeek>)
    requires |ids| == ID_COUNT
    ensures |s| == DEFAULT_WEEKS
    ensures forall i :: 0 <= i < |s| ==> s[i] == DefaultWeek(i, ids) && s[i].weekNumber == i + 1
  {
    seq(DEFAULT_WEEKS, i requires 0 <= i < DEFAULT_WEEKS => DefaultWeek(i, ids))
  }

  /** `getDefaultNutritionPlan(coachId)`. */
  function DefaultNutritionPlan(coachId: string, users: seq<User>, ids: seq<string>): (p: DefaultPlan)
    requires |ids| == ID_COUNT
    ensures p.weeks == |p.mealSchedule| == 8
    ensures p.coachId == coachId && p.athleteId == SampleTrainingPlan.DefaultAthleteId(users)
  {
    DefaultPlan(DEFAULT_NAME, DEFAULT_DESCRIPTION, DEFAULT_WEEKS, coachId, SampleTrainingPlan.DefaultAthleteId(users), DefaultMealSchedule(ids))
  }

  /** With the user store empty at the call, the default plan has no athlete. */
  lemma EmptyStoreGivesNoAthlete(coachId: string, ids: seq<string>)
    requires |ids| == ID_COUNT
    ensures DefaultNutritionPlan(coachId, [], ids).athleteId == ""
  {
  }

  /** Week `i + 1` holds a 400 kcal breakfast (30/50/10 g) then a 500 kcal
      lunch (40/30/20 g), both on day 1, both pending, both carrying the
      week's number and the empty plan id. */
  predicate IsDefaultWeek(w: MealWeek, n: int)
  {
    w.weekNumber == n && |w.meals| == 2
    && w.meals[0].mealType == "breakfast" && w.meals[1].mealType == "lunch"
    && w.meals[0].calories == Some(400) && w.meals[1].calories == Some(500)
    && w.meals[0].protein == Some(30) && w.meals[0].carbs == Some(50) && w.meals[0].fats == Some(10)
    && w.meals[1].protein == Some(40) && w.meals[1].carbs == Some(30) && w.meals[1].fats == Some(20)
    && forall j :: 0 <= j < |w.meals| ==>
         w.meals[j].weekNumber == n && w.meals[j].nutritionPlanId == ""
         && w.meals[j].dayOfWeek == 1 && !w.meals[j].completed && w.meals[j].completedAt.None?
  }

  lemma DefaultWeekIsDefault(i: nat, ids: seq<string>)
    requires 2 * i + 1 < |ids|
    ensures IsDefaultWeek(DefaultWeek(i, ids), i + 1)
  {
    var w := DefaultWeek(i, ids);
    assert w.meals[0] == Breakfast(ids[2 * i], i + 1) && w.meals[1] == Lunch(ids[2 * i + 1], i + 1);
  }

  /** Every week of the default plan is week `i + 1` in the shape above. */
  lemma DefaultWeeksShape(coachId: string, users: seq<User>, ids: seq<string>)
    requires |ids| == ID_COUNT
    ensures var s := DefaultNutritionPlan(coachId, users, ids).mealSchedule;
      forall i :: 0 <= i < |s| ==> IsDefaultWeek(s[i], i + 1)
  {
    var s := DefaultMealSchedule(ids);
    assert s == DefaultNutritionPlan(coachId, users, ids).mealSchedule;
    forall i | 0 <= i < |s|
      ensures IsDefaultWeek(s[i], i + 1)
    {
      assert s[i] == DefaultWeek(i, ids);
      DefaultWeekIsDefault(i, ids);
    }
  }

  /** Meal `j` of week `i` has the id drawn `2i + j`-th. */
  lemma DefaultMealIds(ids: seq<string>)
    requires |ids| == ID_COUNT
    ensures var s := DefaultMealSchedule(ids);
      forall i, j :: 0 <= i < |s| && 0 <= j < |s[i].meals| ==> s[i].meals[j].id == ids[2 * i + j]
  {
  }

  /** Distinct draws give every generated meal its own id. */
  lemma DefaultMealIdsDistinct(ids: seq<string>)
    requires |ids| == ID_COUNT && Distinct(ids)
    ensures var s := DefaultMealSchedule(ids);
      forall i, j, i', j' ::
        (0 <= i < |s| && 0 <= j < |s[i].meals| && 0 <= i' < |s| && 0 <= j' < |s[i'].meals| && (i, j) != (i', j'))
        ==> s[i].meals[j].id != s[i'].meals[j'].id
  {
    DefaultMealIds(ids);
  }

  lemma {:induction false} DefaultPrefixCounts(ids: seq<string>, k: nat)
    requires |ids| == ID_COUNT && k <= DEFAULT_WEEKS
    ensures TotalMeals(DefaultMealSchedule(ids)[..k]) == 2 * k
    ensures CompletedMeals(DefaultMealSchedule(ids)[..k]) == 0
  {
    if k > 0 {
      var s := DefaultMealSchedule(ids)[..k];
      assert s[..k - 1] == DefaultMealSchedule(ids)[..k - 1];
      DefaultPrefixCounts(ids, k - 1);
      DefaultWeekCounts(k - 1, ids);
    }
  }

  /** A default week has two meals, none completed. */
  lemma DefaultWeekCounts(i: nat, ids: seq<string>)
    requires 2 * i + 1 < |ids|
    ensures |DefaultWeek(i, ids).meals| == 2 && Count(DefaultWeek(i, ids).meals, IsCompleted) == 0
  {
    FilterNone(DefaultWeek(i, ids).meals, IsCompleted);
  }

  /** Sixteen meals, none completed. */
  lemma DefaultCounts(coachId: string, users: seq<User>, ids: seq<string>)
    requires |ids| == ID_COUNT
    ensures var s := DefaultNutritionPlan(coachId, users, ids).mealSchedule;
      TotalMeals(s) == 16 && CompletedMeals(s) == 0
  {
    DefaultPrefixCounts(ids, DEFAULT_WEEKS);
    assert DefaultMealSchedule(ids)[..DEFAULT_WEEKS] == DefaultMealSchedule(ids);
  }

  /** The default schedule is already in the shape the meal editor keeps and
      grouping produces: distinct week numbers, no empty week. */
  lemma DefaultIsWellFormed(ids: seq<string>)
    requires |ids| == ID_COUNT
    ensures MealScheduleEditor.WellFormed(DefaultMealSchedule(ids))
  {
    var s := DefaultMealSchedule(ids);
    assert forall i :: 0 <= i < |s| ==> WeekNumbers(s)[i] == i + 1;
  }

  /** Saving the default plan inserts two rows per week, each with the week
      number that its meal also carries, so taking the number from the
      enclosing week rather than from the meal makes no difference here. */
  lemma DefaultInsertRows(planId: string, ids: seq<string>)
    requires |ids| == ID_COUNT
    ensures |MealInsertRows(planId, DefaultMealSchedule(ids))| == 16
    ensures var s := DefaultMealSchedule(ids);
      forall k, j :: 0 <= k < |s| && 0 <= j < |s[k].meals| ==>
        MealInsertRows(planId, s)[2 * k + j].weekNumber == s[k].meals[j].weekNumber
  {
    var s := DefaultMealSchedule(ids);
    DefaultPrefixCounts(ids, DEFAULT_WEEKS);
    assert s[..DEFAULT_WEEKS] == s;
    forall k, j | 0 <= k < |s| && 0 <= j < |s[k].meals|
      ensures MealInsertRows(planId, s)[2 * k + j].weekNumber == s[k].meals[j].weekNumber
    {
      DefaultPrefixCounts(ids, k);
      MealInsertRowAt(planId, s, k, j);
      DefaultWeekIsDefault(k, ids);
    }
  }
}
